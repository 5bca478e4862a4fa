/** The operations of file-lfs/lfs.py as functions on the log, the inode map and the checkpoint region, and what
    they keep. */
module LfsOps {
  import opened LfsDisk

  // ---------- directories ----------

  function FindName(entries: Entries, name: string): (i: int)
    ensures -1 <= i < |entries|
    ensures i >= 0 ==> entries[i].0 == name
  {
    FindNameFrom(entries, name, 0)
  }

  function FindNameFrom(entries: Entries, name: string, from: nat): (i: int)
    requires from <= |entries|
    ensures -1 <= i < |entries| && (i >= 0 ==> i >= from && entries[i].0 == name)
    decreases |entries| - from
  {
    if from == |entries| then -1 else if entries[from].0 == name then from else FindNameFrom(entries, name, from + 1)
  }

  ghost predicate IsDir(disk: Disk, dir: Inode) { dir.kind.Dir? && InodeOk(disk, dir) }

  function EntriesAt(disk: Disk, dir: Inode, k: nat): Entries
    requires IsDir(disk, dir) && k < dir.size
  {
    disk[dir.pointers[k]].entries
  }

  /** __find_matching_dir_slot: the first block with the name, and the first slot in it; (-1, -1) if none. */
  function FindSlot(disk: Disk, dir: Inode, name: string, from: nat): (r: (int, int))
    requires IsDir(disk, dir) && from <= dir.size
    ensures r == (-1, -1) || (from <= r.0 < dir.size && 0 <= r.1 < PTRS && EntriesAt(disk, dir, r.0)[r.1].0 == name)
    decreases dir.size - from
  {
    if from == dir.size then (-1, -1)
    else
      var i := FindName(EntriesAt(disk, dir, from), name);
      if i != -1 then (from, i) else FindSlot(disk, dir, name, from + 1)
  }

  /** The inode number a name stands for, -1 if the directory does not list it. */
  function Number(disk: Disk, dir: Inode, name: string): int
    requires IsDir(disk, dir)
  {
    var (k, i) := FindSlot(disk, dir, name, 0);
    if k == -1 then -1 else EntriesAt(disk, dir, k)[i].1
  }

  /** make_empty_dirblock. */
  function Empty(): Entries {
    [("-", -1), ("-", -1), ("-", -1), ("-", -1), ("-", -1), ("-", -1), ("-", -1), ("-", -1)]
  }

  function NoPointers(): seq<int> { [-1, -1, -1, -1, -1, -1, -1, -1] }

  function NewDirEntries(parent: int, current: int): Entries { Empty()[0 := (".", current)][1 := ("..", parent)] }

  /** __add_dir_entry: the block to rewrite, the directory's size afterwards and the new block. */
  function AddEntry(disk: Disk, dir: Inode, name: string, n: int): Option<(nat, nat, Entries)>
    requires IsDir(disk, dir)
  {
    var (k, i) := FindSlot(disk, dir, "-", 0);
    if k != -1 then Some((k, dir.size, EntriesAt(disk, dir, k)[i := (name, n)]))
    else if dir.size != PTRS then Some((dir.size, dir.size + 1, Empty()[0 := (name, n)]))
    else None
  }

  // ---------- the state after each operation ----------

  function SetBlock(dir: Inode, k: nat, address: int, size: nat): Inode
    requires |dir.pointers| == PTRS && k < PTRS
  {
    dir.(size := size, pointers := dir.pointers[k := address])
  }

  function NewNode(isFile: bool, address: int): Inode {
    if isFile then Inode(Reg, 0, 1, NoPointers()) else Inode(Dir, 1, 2, NoPointers()[0 := address])
  }

  ghost predicate Legal(s: State, p: nat, dir: Inode) {
    Shaped(s) && p < INODES && MemInode(s.disk, s.inodeMap, p) == Some(dir) && dir.kind.Dir?
  }

  /** __file_create once parent and inode number are found. */
  function CreateState(s: State, p: nat, dir: Inode, name: string, n: nat, isFile: bool): State
    requires Legal(s, p, dir) && IsDir(s.disk, dir) && AddEntry(s.disk, dir, name, n).Some? && n < INODES
  {
    var (k, size, entries) := AddEntry(s.disk, dir, name, n).value;
    var dir' := SetBlock(dir, k, |s.disk|, size).(refs := if isFile then dir.refs else dir.refs + 1);
    var own := if isFile then [] else [DirBlock(NewDirEntries(p, n))];
    var d := s.disk + [DirBlock(entries)] + own;
    Relog(State(d + [Node(dir')] + [Node(NewNode(isFile, |d| - 1))], s.inodeMap[p := |d|][n := |d| + 1], s.cr),
      [p, n], [])
  }

  /** file_link once source and destination directory are found: only the directory's chunk is logged. */
  function LinkState(s: State, p: nat, dir: Inode, name: string, n: nat, src: Inode): State
    requires Legal(s, p, dir) && IsDir(s.disk, dir) && AddEntry(s.disk, dir, name, n).Some? && n < INODES
  {
    var (k, size, entries) := AddEntry(s.disk, dir, name, n).value;
    var d := s.disk + [DirBlock(entries)];
    Relog(State(d + [Node(SetBlock(dir, k, |s.disk|, size))] + [Node(src.(refs := src.refs + 1))],
      s.inodeMap[p := |d|][n := |d| + 1], s.cr), [p], [])
  }

  /** file_delete: the entry goes; with the last link the inode goes too, otherwise its count drops. */
  function DeleteState(s: State, p: nat, dir: Inode, name: string, n: nat, file: Inode): State
    requires Legal(s, p, dir) && IsDir(s.disk, dir) && FindSlot(s.disk, dir, name, 0).0 != -1 && n < INODES
  {
    var (k, i) := FindSlot(s.disk, dir, name, 0);
    var d := s.disk + [DirBlock(EntriesAt(s.disk, dir, k)[i := ("-", -1)])] +
      [Node(SetBlock(dir, k, |s.disk|, dir.size))];
    var map0 := if file.refs == 1 then s.inodeMap[n := -1] else s.inodeMap;
    var map1 := map0[p := |d| - 1];
    var t := if file.refs > 1 then State(d + [Node(file.(refs := file.refs - 1))], map1[n := |d|], s.cr)
      else State(d, map1, s.cr);
    Relog(t, [n, p], [])
  }

  /** How many of the blocks offered fit. */
  function Fits(offset: nat, contents: seq<string>): nat
    requires offset < PTRS
  {
    if |contents| <= PTRS - offset then |contents| else PTRS - offset
  }

  function Blocks(contents: seq<string>): (r: seq<Block>)
    ensures |r| == |contents| && forall i :: 0 <= i < |r| ==> r[i] == Data(contents[i])
  {
    if contents == [] then [] else Blocks(contents[..|contents| - 1]) + [Data(contents[|contents| - 1])]
  }

  function Repointed(pointers: seq<int>, offset: nat, w: nat, first: nat): (r: seq<int>)
    requires offset + w <= |pointers|
    ensures |r| == |pointers|
  {
    pointers[..offset] + seq(w, i => first + i) + pointers[offset + w..]
  }

  function Written(file: Inode, offset: nat, w: nat, first: nat): Inode
    requires |file.pointers| == PTRS && offset + w <= PTRS
  {
    file.(size := if file.size < offset + w then offset + w else file.size,
          pointers := Repointed(file.pointers, offset, w, first))
  }

  function WriteState(s: State, n: nat, file: Inode, offset: nat, contents: seq<string>): State
    requires |s.inodeMap| == INODES && |s.cr| == CHUNKS && n < INODES && |file.pointers| == PTRS && offset < PTRS
  {
    var w := Fits(offset, contents);
    var d := s.disk + Blocks(contents[..w]);
    LogChunk(State(d + [Node(Written(file, offset, w, |s.disk|))], s.inodeMap[n := |d|], s.cr), Chunk(n))
  }

  // ---------- every operation keeps the log well-formed and only appends ----------

  lemma IsDirOf(s: State, p: nat, dir: Inode)
    requires Legal(s, p, dir)
    ensures IsDir(s.disk, dir) && 0 < s.inodeMap[p] < |s.disk|
  {
    assert BlockOk(s.disk, s.disk[s.inodeMap[p]]);
  }

  lemma NodeOf(s: State, n: nat, file: Inode)
    requires Shaped(s) && n < INODES && MemInode(s.disk, s.inodeMap, n) == Some(file)
    ensures InodeOk(s.disk, file)
  {
    assert BlockOk(s.disk, s.disk[s.inodeMap[n]]);
  }

  /** Appending a well-formed block that is not a checkpoint. */
  lemma AppendShaped(s: State, b: Block)
    requires Shaped(s) && BlockOk(s.disk, b) && !b.Checkpoint?
    ensures Shaped(s.(disk := s.disk + [b]))
  {
    LogOk(s.disk, b);
  }

  lemma RemapShaped(s: State, n: nat, a: int)
    requires Shaped(s) && n < INODES && (a == -1 || (IsAt(s.disk, a) && s.disk[a].Node?))
    ensures Shaped(s.(inodeMap := s.inodeMap[n := a]))
  {
  }

  lemma EntryBlockOk(disk: Disk, dir: Inode, k: nat, i: nat, e: (string, int))
    requires DiskOk(disk) && IsDir(disk, dir) && k < dir.size && i < PTRS && -1 <= e.1 < INODES
    ensures EntriesOk(EntriesAt(disk, dir, k)[i := e])
  {
    assert PointsAtDir(disk, dir.pointers[k]);
    assert BlockOk(disk, disk[dir.pointers[k]]);
  }

  lemma AddEntryOk(disk: Disk, dir: Inode, name: string, n: int)
    requires DiskOk(disk) && IsDir(disk, dir) && AddEntry(disk, dir, name, n).Some? && -1 <= n < INODES
    ensures var (k, size, entries) := AddEntry(disk, dir, name, n).value;
      k < size <= PTRS && (size == dir.size || (size == dir.size + 1 && k == dir.size))
        && EntriesOk(entries) && |dir.pointers| == PTRS
  {
    var (k, i) := FindSlot(disk, dir, "-", 0);
    if k != -1 { EntryBlockOk(disk, dir, k, i, (name, n)); }
  }

  lemma SetBlockOk(disk: Disk, dir: Inode, k: nat, size: nat, entries: Entries, refs: int)
    requires IsDir(disk, dir) && k < size <= PTRS
      && (size == dir.size || (size == dir.size + 1 && k == dir.size)) && |entries| == PTRS
    ensures var d := disk + [DirBlock(entries)]; IsDir(d, SetBlock(dir, k, |disk|, size).(refs := refs))
  {
    var d, dir' := disk + [DirBlock(entries)], SetBlock(dir, k, |disk|, size).(refs := refs);
    forall j | 0 <= j < PTRS ensures if j < size then PointsAtDir(d, dir'.pointers[j]) else dir'.pointers[j] == -1 {
      assert j < dir.size ==> PointsAtDir(disk, dir.pointers[j]);
    }
  }

  lemma PointersOf(disk: Disk, dir: Inode)
    requires IsDir(disk, dir)
    ensures |dir.pointers| == PTRS && dir.size <= PTRS
  {
  }

  lemma EntriesLength(disk: Disk, dir: Inode, k: nat)
    requires IsDir(disk, dir) && k < dir.size
    ensures |EntriesAt(disk, dir, k)| == PTRS
  {
  }

  lemma InodeStays(disk: Disk, disk': Disk, i: Inode)
    requires InodeOk(disk, i) && disk <= disk'
    ensures InodeOk(disk', i)
  {
  }

  lemma CreateShaped(s: State, p: nat, dir: Inode, name: string, n: nat, isFile: bool)
    requires Legal(s, p, dir) && IsDir(s.disk, dir) && AddEntry(s.disk, dir, name, n).Some? && n < INODES && n != p
    ensures var t := CreateState(s, p, dir, name, n, isFile); Shaped(t) && s.disk <= t.disk
    ensures var t := CreateState(s, p, dir, name, n, isFile); ChunksOk(s) ==> ChunksOk(t)
  {
    hide Shaped, AddEntry, Relog, DiskOk, InodeOk;
    ShapedSizes(s);
    ShapedDisk(s);
    AddEntryOk(s.disk, dir, name, n);
    var (k, size, entries) := AddEntry(s.disk, dir, name, n).value;
    var refs := if isFile then dir.refs else dir.refs + 1;
    var dir' := SetBlock(dir, k, |s.disk|, size).(refs := refs);
    SetBlockOk(s.disk, dir, k, size, entries, refs);
    AppendShaped(s, DirBlock(entries));
    var s1 := s.(disk := s.disk + [DirBlock(entries)]);
    var s2 := if isFile then s1 else s1.(disk := s1.disk + [DirBlock(NewDirEntries(p, n))]);
    if !isFile { AppendShaped(s1, DirBlock(NewDirEntries(p, n))); }
    InodeStays(s1.disk, s2.disk, dir');
    AppendShaped(s2, Node(dir'));
    var s3 := s2.(disk := s2.disk + [Node(dir')]);
    NewNodeOk(s3.disk, isFile, |s2.disk| - 1);
    AppendShaped(s3, Node(NewNode(isFile, |s2.disk| - 1)));
    var s4 := s3.(disk := s3.disk + [Node(NewNode(isFile, |s2.disk| - 1))]);
    RemapShaped(s4, p, |s2.disk|);
    RemapShaped(s4.(inodeMap := s4.inodeMap[p := |s2.disk|]), n, |s2.disk| + 1);
    var s5 := s4.(inodeMap := s4.inodeMap[p := |s2.disk|][n := |s2.disk| + 1]);
    var own := if isFile then [] else [DirBlock(NewDirEntries(p, n))];
    assert s2.disk == s.disk + [DirBlock(entries)] + own;
    assert CreateState(s, p, dir, name, n, isFile) == Relog(s5, [p, n], []);
    RelogBoth(s, s5, p, n);
  }

  lemma NewNodeOk(disk: Disk, isFile: bool, a: int)
    requires !isFile ==> PointsAtDir(disk, a)
    ensures InodeOk(disk, NewNode(isFile, a))
  {
  }

  lemma ShapedDisk(s: State)
    requires Shaped(s)
    ensures DiskOk(s.disk)
  {
  }

  /** Two numbers remapped and their chunks logged: every chunk that was up to date is, or is again. */
  lemma RelogBoth(s: State, t: State, p: nat, n: nat)
    requires Shaped(s) && Shaped(t) && s.disk <= t.disk && t.cr == s.cr && p < INODES && n < INODES
    requires forall i: nat :: i < INODES && i != p && i != n ==> t.inodeMap[i] == s.inodeMap[i]
    ensures forall u: State :: u == Relog(t, [p, n], []) || u == Relog(t, [n, p], []) ==>
      Shaped(u) && s.disk <= u.disk && (ChunksOk(s) ==> ChunksOk(u))
  {
    hide Relog;
    RelogShaped(t, [p, n], []);
    RelogShaped(t, [n, p], []);
    assert [p, n][0] == p && [p, n][1] == n && [n, p][0] == n && [n, p][1] == p;
    if ChunksOk(s) {
      forall c: nat | c < CHUNKS && c != Chunk(p) && c != Chunk(n) ensures ChunkOk(t, c) {
        UntouchedChunk(s, t, c);
      }
    }
  }

  lemma UntouchedChunk(s: State, t: State, c: nat)
    requires Shaped(s) && Shaped(t) && s.disk <= t.disk && t.cr == s.cr && c < CHUNKS && ChunkOk(s, c)
    requires forall i: nat :: i < INODES && Chunk(i) == c ==> t.inodeMap[i] == s.inodeMap[i]
    ensures ChunkOk(t, c)
  {
    forall i: nat | c * PER_CHUNK <= i < c * PER_CHUNK + PER_CHUNK ensures t.inodeMap[i] == s.inodeMap[i] {
      assert Chunk(i) == c;
    }
    assert ImapChunk(t.inodeMap, c) == ImapChunk(s.inodeMap, c);
  }

  lemma LinkShapedOnly(s: State, p: nat, dir: Inode, name: string, n: nat, src: Inode)
    requires Legal(s, p, dir) && IsDir(s.disk, dir) && AddEntry(s.disk, dir, name, n).Some? && n < INODES
    requires MemInode(s.disk, s.inodeMap, n) == Some(src)
    ensures var t := LinkState(s, p, dir, name, n, src); Shaped(t) && s.disk <= t.disk
  {
    hide Shaped, AddEntry, Relog, DiskOk, InodeOk, ChunkOk;
    var t := BeforeRelog(s, p, dir, name, n, src);
    RelogShaped(t, [p], []);
  }

  /** A link before its imap chunk is logged. */
  lemma BeforeRelog(s: State, p: nat, dir: Inode, name: string, n: nat, src: Inode) returns (t: State)
    requires Legal(s, p, dir) && IsDir(s.disk, dir) && AddEntry(s.disk, dir, name, n).Some? && n < INODES
    requires MemInode(s.disk, s.inodeMap, n) == Some(src)
    ensures Shaped(t) && s.disk <= t.disk && t.cr == s.cr && Shaped(s)
    ensures |s.inodeMap| == INODES && |s.cr| == CHUNKS && |t.inodeMap| == INODES
    ensures LinkState(s, p, dir, name, n, src) == Relog(t, [p], [])
    ensures t.inodeMap == s.inodeMap[p := |s.disk| + 1][n := |s.disk| + 2]
    ensures |t.disk| == |s.disk| + 3 && t.disk[|s.disk| + 2] == Node(src.(refs := src.refs + 1))
  {
    hide Shaped, AddEntry, Relog, DiskOk, InodeOk, ChunkOk;
    ShapedSizes(s);
    ShapedDisk(s);
    AddEntryOk(s.disk, dir, name, n);
    var (k, size, entries) := AddEntry(s.disk, dir, name, n).value;
    var dir', src' := SetBlock(dir, k, |s.disk|, size), src.(refs := src.refs + 1);
    SetBlockOk(s.disk, dir, k, size, entries, dir.refs);
    assert dir' == dir'.(refs := dir.refs);
    AppendShaped(s, DirBlock(entries));
    var s1 := s.(disk := s.disk + [DirBlock(entries)]);
    AppendShaped(s1, Node(dir'));
    var s2 := s1.(disk := s1.disk + [Node(dir')]);
    NodeOf(s, n, src);
    RefsOk(s.disk, s2.disk, src, src'.refs);
    AppendShaped(s2, Node(src'));
    var s3 := s2.(disk := s2.disk + [Node(src')]);
    RemapShaped(s3, p, |s1.disk|);
    RemapShaped(s3.(inodeMap := s3.inodeMap[p := |s1.disk|]), n, |s1.disk| + 1);
    t := s3.(inodeMap := s3.inodeMap[p := |s1.disk|][n := |s1.disk| + 1]);
  }

  /** A link keeps the log well-formed. It leaves the chunk of the source's number out of date exactly when that
      is not the chunk of the destination directory; every other chunk stays up to date. */
  lemma LinkShaped(s: State, p: nat, dir: Inode, name: string, n: nat, src: Inode)
    requires Legal(s, p, dir) && IsDir(s.disk, dir) && AddEntry(s.disk, dir, name, n).Some? && n < INODES
    requires MemInode(s.disk, s.inodeMap, n) == Some(src) && src.kind.Reg? && ChunksOk(s)
    ensures var t := LinkState(s, p, dir, name, n, src);
      && Shaped(t) && s.disk <= t.disk && MemInode(t.disk, t.inodeMap, n) == Some(src.(refs := src.refs + 1))
      && (forall c: nat :: c < CHUNKS && c != Chunk(n) ==> ChunkOk(t, c))
      && (ChunkOk(t, Chunk(n)) <==> Chunk(n) == Chunk(p))
      && t.cr[Chunk(n)] == (if Chunk(n) == Chunk(p) then t.cr[Chunk(p)] else s.cr[Chunk(n)])
  {
    hide Shaped, AddEntry, Relog, DiskOk, InodeOk, ChunkOk;
    var u := BeforeRelog(s, p, dir, name, n, src);
    RelogShaped(u, [p], []);
    assert [p][0] == p;
    forall c: nat | c < CHUNKS && c != Chunk(p) && c != Chunk(n) ensures ChunkOk(u, c) {
      UntouchedChunk(s, u, c);
    }
    if Chunk(n) != Chunk(p) { StaleChunk(s, Relog(u, [p], []), n); }
  }

  /** A remapped number whose chunk was not logged again. */
  lemma StaleChunk(s: State, t: State, n: nat)
    requires Shaped(s) && Shaped(t) && s.disk <= t.disk && n < INODES && ChunkOk(s, Chunk(n))
    requires t.cr[Chunk(n)] == s.cr[Chunk(n)]
    requires s.inodeMap[n] != -1 && t.inodeMap[n] >= |s.disk|
    ensures !ChunkOk(t, Chunk(n))
  {
    var c := Chunk(n);
    assert ImapChunk(s.inodeMap, c)[n - c * PER_CHUNK] == s.inodeMap[n]
      && ImapChunk(t.inodeMap, c)[n - c * PER_CHUNK] == t.inodeMap[n];
  }

  lemma RefsOk(disk: Disk, disk': Disk, i: Inode, refs: int)
    requires InodeOk(disk, i) && disk <= disk'
    ensures InodeOk(disk', i.(refs := refs))
  {
  }

  /** What the disk path says after a link and a cr_sync: the new reference count if the source's number shares
      an imap chunk with the destination directory's, and the old one if it does not. */
  lemma LinkThenSync(s: State, p: nat, dir: Inode, name: string, n: nat, src: Inode)
    requires Legal(s, p, dir) && IsDir(s.disk, dir) && AddEntry(s.disk, dir, name, n).Some? && n < INODES
    requires MemInode(s.disk, s.inodeMap, n) == Some(src) && src.kind.Reg? && ChunksOk(s)
    ensures var t := LinkState(s, p, dir, name, n, src);
      && |t.disk| > 0 && MemInode(t.disk, t.inodeMap, n) == Some(src.(refs := src.refs + 1))
      && DiskInode(Sync(t).disk, n) == Some(if Chunk(n) == Chunk(p) then src.(refs := src.refs + 1) else src)
  {
    hide Shaped, AddEntry, DiskOk, InodeOk, ChunkOk, LinkState, DiskInode, MemInode, Legal, IsDir;
    var t := LinkState(s, p, dir, name, n, src);
    LegalShaped(s, p, dir);
    LinkShaped(s, p, dir, name, n, src);
    ShapedSizes(t);
    if Chunk(n) == Chunk(p) {
      SyncAgrees(t, n);
    } else {
      StaleRead(s, t, n, src);
    }
  }

  lemma LegalShaped(s: State, p: nat, dir: Inode)
    requires Legal(s, p, dir)
    ensures Shaped(s)
  {
  }

  lemma StaleRead(s: State, t: State, n: nat, src: Inode)
    requires Shaped(s) && Shaped(t) && s.disk <= t.disk && n < INODES && ChunkOk(s, Chunk(n))
    requires t.cr[Chunk(n)] == s.cr[Chunk(n)]
    requires MemInode(s.disk, s.inodeMap, n) == Some(src)
    ensures DiskInode(Sync(t).disk, n) == Some(src)
  {
    hide AllNodes, BlockOk;
    var c, u := Chunk(n), Sync(t).disk;
    assert s.cr[c] != -1 && IsAt(s.disk, s.cr[c]);
    assert s.disk[s.cr[c]] == Imap(ImapChunk(s.inodeMap, c)) && s.disk[0].Checkpoint?;
    SizesOf(t);
    assert u[0] == Checkpoint(t.cr) && u[s.cr[c]] == Imap(ImapChunk(s.inodeMap, c)) && u[s.inodeMap[n]] == Node(src);
    assert ImapChunk(s.inodeMap, c)[n % PER_CHUNK] == s.inodeMap[n];
  }

  lemma SizesOf(t: State)
    requires Shaped(t)
    ensures |t.cr| == CHUNKS
  {
  }

  lemma DeleteShaped(s: State, p: nat, dir: Inode, name: string, n: nat, file: Inode)
    requires Legal(s, p, dir) && IsDir(s.disk, dir) && FindSlot(s.disk, dir, name, 0).0 != -1 && n < INODES && n != p
    requires MemInode(s.disk, s.inodeMap, n) == Some(file)
    ensures var t := DeleteState(s, p, dir, name, n, file); Shaped(t) && s.disk <= t.disk
    ensures var t := DeleteState(s, p, dir, name, n, file); ChunksOk(s) ==> ChunksOk(t)
  {
    hide Shaped, FindSlot, Relog, DiskOk, InodeOk;
    ShapedSizes(s);
    ShapedDisk(s);
    PointersOf(s.disk, dir);
    var (k, i) := FindSlot(s.disk, dir, name, 0);
    EntriesLength(s.disk, dir, k);
    var entries := EntriesAt(s.disk, dir, k)[i := ("-", -1)];
    EntryBlockOk(s.disk, dir, k, i, ("-", -1));
    SetBlockOk(s.disk, dir, k, dir.size, entries, dir.refs);
    var dir' := SetBlock(dir, k, |s.disk|, dir.size);
    assert dir' == dir'.(refs := dir.refs);
    AppendShaped(s, DirBlock(entries));
    var s1 := s.(disk := s.disk + [DirBlock(entries)]);
    AppendShaped(s1, Node(dir'));
    var s2 := s1.(disk := s1.disk + [Node(dir')]);
    RemapShaped(s2, n, -1);
    var map0 := if file.refs == 1 then s.inodeMap[n := -1] else s.inodeMap;
    var s3 := s2.(inodeMap := map0);
    RemapShaped(s3, p, |s1.disk|);
    var s4 := s3.(inodeMap := map0[p := |s1.disk|]);
    NodeOf(s, n, file);
    var file' := file.(refs := file.refs - 1);
    RefsOk(s.disk, s4.disk, file, file'.refs);
    AppendShaped(s4, Node(file'));
    var s5 := s4.(disk := s4.disk + [Node(file')]);
    RemapShaped(s5, n, |s2.disk|);
    var t := if file.refs > 1 then s5.(inodeMap := s5.inodeMap[n := |s2.disk|]) else s4;
    assert DeleteState(s, p, dir, name, n, file) == Relog(t, [n, p], []);
    RelogBoth(s, t, p, n);
  }

  lemma {:induction false} DataShaped(s: State, contents: seq<string>)
    requires Shaped(s)
    ensures Shaped(s.(disk := s.disk + Blocks(contents))) && s.disk <= s.disk + Blocks(contents)
  {
    hide Shaped;
    if contents == [] {
      assert s.disk + [] == s.disk;
    } else {
      var n := |contents| - 1;
      DataShaped(s, contents[..n]);
      var t, b := s.(disk := s.disk + Blocks(contents[..n])), Data(contents[n]);
      AppendShaped(t, b);
      assert s.disk + Blocks(contents) == t.disk + [b];
    }
  }

  lemma RepointedAt(pointers: seq<int>, offset: nat, w: nat, first: nat, k: nat)
    requires offset + w <= |pointers| && k < |pointers|
    ensures Repointed(pointers, offset, w, first)[k] == if offset <= k < offset + w
      then first + (k - offset) else pointers[k]
  {
  }

  lemma WrittenOk(disk: Disk, file: Inode, offset: nat, contents: seq<string>)
    requires InodeOk(disk, file) && file.kind.Reg? && offset + |contents| <= PTRS
    ensures InodeOk(disk + Blocks(contents), Written(file, offset, |contents|, |disk|))
  {
    hide Repointed;
    var d, f, w := disk + Blocks(contents), Written(file, offset, |contents|, |disk|), |contents|;
    forall k | 0 <= k < PTRS ensures f.pointers[k] == -1 || (IsAt(d, f.pointers[k]) && d[f.pointers[k]].Data?) {
      RepointedAt(file.pointers, offset, w, |disk|, k);
    }
  }

  lemma WriteShaped(s: State, n: nat, file: Inode, offset: nat, contents: seq<string>)
    requires Shaped(s) && n < INODES && MemInode(s.disk, s.inodeMap, n) == Some(file) && file.kind.Reg? && offset < PTRS
    requires |file.pointers| == PTRS
    ensures var t := WriteState(s, n, file, offset, contents); Shaped(t) && s.disk <= t.disk
    ensures var t := WriteState(s, n, file, offset, contents); ChunksOk(s) ==> ChunksOk(t)
  {
    hide Shaped, InodeOk, Written;
    ShapedSizes(s);
    var w := Fits(offset, contents);
    var fit := contents[..w];
    DataShaped(s, fit);
    var s1 := s.(disk := s.disk + Blocks(fit));
    NodeOf(s, n, file);
    WrittenOk(s.disk, file, offset, fit);
    var b := Node(Written(file, offset, w, |s.disk|));
    AppendShaped(s1, b);
    var s2 := s1.(disk := s1.disk + [b]);
    RemapShaped(s2, n, |s1.disk|);
    var s3 := s2.(inodeMap := s2.inodeMap[n := |s1.disk|]);
    LogChunkShaped(s3, Chunk(n));
    assert WriteState(s, n, file, offset, contents) == LogChunk(s3, Chunk(n));
    if ChunksOk(s) {
      forall c: nat | c < CHUNKS && c != Chunk(n) ensures ChunkOk(s3, c) {
        UntouchedChunk(s, s3, c);
      }
    }
  }

  /** A write is read back: each block written is at its place in the file, and the others are as before. */
  lemma WriteThenRead(s: State, n: nat, file: Inode, offset: nat, contents: seq<string>, k: nat)
    requires Shaped(s) && n < INODES && MemInode(s.disk, s.inodeMap, n) == Some(file) && file.kind.Reg? && offset < PTRS
    requires |s.inodeMap| == INODES && |s.cr| == CHUNKS && |file.pointers| == PTRS && k < PTRS
    ensures var t := WriteState(s, n, file, offset, contents);
      MemInode(t.disk, t.inodeMap, n).Some?
      && var f := MemInode(t.disk, t.inodeMap, n).value;
      && |f.pointers| == PTRS
      && BlockAt(t.disk, f.pointers[k]) ==
         (if offset <= k < offset + Fits(offset, contents)
           then Some(Data(contents[k - offset])) else BlockAt(s.disk, file.pointers[k]))
  {
    hide Shaped;
    ShapedSizes(s);
    var w, t := Fits(offset, contents), WriteState(s, n, file, offset, contents);
    assert t.inodeMap[n] == |s.disk| + w && t.disk[|s.disk| + w] == Node(Written(file, offset, w, |s.disk|));
    if offset <= k < offset + w {
      assert t.disk[|s.disk| + (k - offset)] == Data(contents[..w][k - offset]);
    } else {
      PointerInRange(s, n, file, k);
    }
  }

  lemma PointerInRange(s: State, n: nat, file: Inode, k: nat)
    requires Shaped(s) && n < INODES && MemInode(s.disk, s.inodeMap, n) == Some(file) && file.kind.Reg? && k < PTRS
    ensures |file.pointers| == PTRS && (file.pointers[k] == -1 || IsAt(s.disk, file.pointers[k]))
  {
    NodeOf(s, n, file);
  }
}
