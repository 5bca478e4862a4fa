/** The log of file-lfs/lfs.py: blocks, the two ways to an inode, and what a crash can see. */
module LfsDisk {

  const CHUNKS: nat := 16
  const PER_CHUNK: nat := 16
  const PTRS: nat := 8
  const INODES: nat := 256

  datatype Kind = Dir | Reg

  datatype Inode = Inode(kind: Kind, size: nat, refs: int, pointers: seq<int>)

  type Entries = seq<(string, int)>

  datatype Block =
    | Checkpoint(chunks: seq<int>)
    | DirBlock(entries: Entries)
    | Data(contents: string)
    | Node(inode: Inode)
    | Imap(addresses: seq<int>)

  type Disk = seq<Block>

  datatype Option<T> = None | Some(value: T)

  // ---------- well-formed blocks ----------

  predicate IsAt(disk: Disk, a: int) { 0 <= a < |disk| }

  ghost predicate PointsAtDir(disk: Disk, a: int) { IsAt(disk, a) && disk[a].DirBlock? && |disk[a].entries| == PTRS }

  ghost predicate InodeOk(disk: Disk, i: Inode) {
    && |i.pointers| == PTRS && i.size <= PTRS
    && (i.kind.Dir? ==> forall k :: 0 <= k < PTRS ==>
      if k < i.size then PointsAtDir(disk, i.pointers[k]) else i.pointers[k] == -1)
    && (i.kind.Reg? ==> forall k :: 0 <= k < PTRS ==>
      i.pointers[k] == -1 || (IsAt(disk, i.pointers[k]) && disk[i.pointers[k]].Data?))
  }

  ghost predicate AllNodes(disk: Disk, addresses: seq<int>) {
    forall k :: 0 <= k < |addresses| ==> addresses[k] == -1 || (IsAt(disk, addresses[k]) && disk[addresses[k]].Node?)
  }

  ghost predicate AllImaps(disk: Disk, chunks: seq<int>) {
    |chunks| == CHUNKS && forall c :: 0 <= c < CHUNKS ==>
      chunks[c] == -1 || (IsAt(disk, chunks[c]) && disk[chunks[c]].Imap?)
  }

  ghost predicate EntriesOk(entries: Entries) {
    |entries| == PTRS && forall k :: 0 <= k < PTRS ==> -1 <= entries[k].1 < INODES
  }

  ghost predicate BlockOk(disk: Disk, b: Block) {
    match b
    case Checkpoint(chunks) => AllImaps(disk, chunks)
    case DirBlock(entries) => EntriesOk(entries)
    case Data(_) => true
    case Node(inode) => InodeOk(disk, inode)
    case Imap(addresses) => |addresses| == PER_CHUNK && AllNodes(disk, addresses)
  }

  /** The checkpoint is block 0, and every block only points at blocks of the kind it should. */
  ghost predicate DiskOk(disk: Disk) {
    && |disk| > 0 && disk[0].Checkpoint?
    && (forall a :: 0 < a < |disk| ==> !disk[a].Checkpoint?)
    && (forall a :: 0 <= a < |disk| ==> BlockOk(disk, disk[a]))
  }

  // ---------- the two ways to an inode ----------

  /** The disk path of get_inode_from_inumber: checkpoint, imap chunk, inode. */
  function DiskInode(disk: Disk, n: nat): Option<Inode>
    requires n < INODES
  {
    if |disk| == 0 || !disk[0].Checkpoint? || |disk[0].chunks| != CHUNKS then None
    else
      var c := disk[0].chunks[n / PER_CHUNK];
      if !IsAt(disk, c) || !disk[c].Imap? || |disk[c].addresses| != PER_CHUNK then None
      else
        var a := disk[c].addresses[n % PER_CHUNK];
        if IsAt(disk, a) && disk[a].Node? then Some(disk[a].inode) else None
  }

  /** The memory path, through inode_map. */
  function MemInode(disk: Disk, inodeMap: seq<int>, n: nat): Option<Inode>
    requires n < |inodeMap|
  {
    var a := inodeMap[n];
    if IsAt(disk, a) && disk[a].Node? then Some(disk[a].inode) else None
  }

  /** An inode with everything it points at: what a reader of the disk gets for a file or directory. */
  datatype File = File(inode: Inode, blocks: seq<Option<Block>>)

  function BlockAt(disk: Disk, a: int): Option<Block> { if IsAt(disk, a) then Some(disk[a]) else None }

  function Contents(disk: Disk,
      i: Inode): File { File(i, seq(|i.pointers|, k requires 0 <= k < |i.pointers| => BlockAt(disk, i.pointers[k]))) }

  /** File number `n` as reached from the checkpoint block. */
  function DiskFile(disk: Disk, n: nat): Option<File>
    requires n < INODES
  {
    match DiskInode(disk, n)
    case None => None
    case Some(i) => Some(Contents(disk, i))
  }

  // ---------- a log that only grows ----------

  lemma BlockStaysOk(disk: Disk, disk': Disk, b: Block)
    requires disk <= disk' && BlockOk(disk, b)
    ensures BlockOk(disk', b)
  {
  }

  lemma LogOk(disk: Disk, b: Block)
    requires DiskOk(disk) && BlockOk(disk, b) && !b.Checkpoint?
    ensures DiskOk(disk + [b])
  {
    hide BlockOk;
    var disk' := disk + [b];
    forall a | 0 <= a < |disk'| ensures BlockOk(disk', disk'[a]) {
      BlockStaysOk(disk, disk', disk'[a]);
    }
  }

  /** The only overwrite: a new checkpoint. Nothing points at the checkpoint block, so all else stays well-formed. */
  lemma SyncOk(disk: Disk, cr: seq<int>)
    requires DiskOk(disk) && AllImaps(disk, cr)
    ensures DiskOk(disk[0 := Checkpoint(cr)])
  {
    hide DiskOk;
    Parts(disk);
    var disk' := disk[0 := Checkpoint(cr)];
    forall a | 0 <= a < |disk'| ensures BlockOk(disk', disk'[a]) {
      StaysOkUnderSync(disk, disk', disk'[a]);
    }
    Join(disk');
  }

  lemma Parts(disk: Disk)
    requires DiskOk(disk)
    ensures |disk| > 0 && disk[0].Checkpoint? && (forall a :: 0 < a < |disk| ==> !disk[a].Checkpoint?)
    ensures forall a :: 0 <= a < |disk| ==> BlockOk(disk, disk[a])
  {
  }

  lemma Join(disk: Disk)
    requires |disk| > 0 && disk[0].Checkpoint? && (forall a :: 0 < a < |disk| ==> !disk[a].Checkpoint?)
    requires forall a :: 0 <= a < |disk| ==> BlockOk(disk, disk[a])
    ensures DiskOk(disk)
  {
  }

  lemma StaysOkUnderSync(disk: Disk, disk': Disk, b: Block)
    requires |disk| == |disk'| && disk != [] && disk[0].Checkpoint?
      && disk'[0].Checkpoint? && (forall a :: 0 < a < |disk| ==> disk'[a] == disk[a])
    requires BlockOk(disk, b)
    ensures BlockOk(disk', b)
  {
  }

  /** What a crash sees: as long as the log only grows, everything reached from the checkpoint block, down to the
      contents of every file and directory, is as before. This holds after every single append, so also for a
      crash in the middle of an operation. */
  lemma SnapshotStable(disk: Disk, disk': Disk, n: nat)
    requires DiskOk(disk) && disk <= disk' && n < INODES
    ensures DiskFile(disk', n) == DiskFile(disk, n)
  {
    assert BlockOk(disk, disk[0]);
    var c := disk[0].chunks[n / PER_CHUNK];
    if c != -1 {
      assert BlockOk(disk, disk[c]);
      var a := disk[c].addresses[n % PER_CHUNK];
      if a != -1 {
        assert BlockOk(disk, disk[a]);
        var i := disk[a].inode;
        ContentsStable(disk, disk', i);
      }
    }
  }

  lemma ContentsStable(disk: Disk, disk': Disk, i: Inode)
    requires InodeOk(disk, i) && disk <= disk'
    ensures Contents(disk', i) == Contents(disk, i)
  {
    assert Contents(disk', i).blocks == Contents(disk, i).blocks;
  }

  // ---------- imap chunks against the inode map ----------

  datatype State = State(disk: Disk, inodeMap: seq<int>, cr: seq<int>)

  function Chunk(n: nat): nat { n / PER_CHUNK }

  /** make_imap_chunk. */
  function ImapChunk(inodeMap: seq<int>, c: nat): seq<int>
    requires |inodeMap| == INODES && c < CHUNKS
  {
    inodeMap[c * PER_CHUNK..c * PER_CHUNK + PER_CHUNK]
  }

  /** The logged piece of the map for chunk `c` is up to date. */
  ghost predicate ChunkOk(s: State, c: nat)
    requires |s.inodeMap| == INODES && |s.cr| == CHUNKS && c < CHUNKS
  {
    if s.cr[c] == -1 then forall k :: c * PER_CHUNK <= k < c * PER_CHUNK + PER_CHUNK ==> s.inodeMap[k] == -1
    else IsAt(s.disk, s.cr[c]) && s.disk[s.cr[c]] == Imap(ImapChunk(s.inodeMap, c))
  }

  ghost predicate Shaped(s: State) {
    && DiskOk(s.disk) && AllImaps(s.disk, s.cr)
    && |s.inodeMap| == INODES && AllNodes(s.disk, s.inodeMap)
  }

  ghost predicate ChunksOk(s: State)
    requires |s.inodeMap| == INODES && |s.cr| == CHUNKS
  {
    forall c: nat :: c < CHUNKS ==> ChunkOk(s, c)
  }

  function Sync(s: State): State
    requires |s.disk| > 0
  {
    s.(disk := s.disk[0 := Checkpoint(s.cr)])
  }

  /** Right after cr_sync the disk path gives the same inode as the memory path, for every number in an up-to-date
      chunk. */
  lemma SyncAgrees(s: State, n: nat)
    requires Shaped(s) && n < INODES && ChunkOk(s, Chunk(n))
    ensures DiskInode(Sync(s).disk, n) == MemInode(s.disk, s.inodeMap, n) == MemInode(Sync(s).disk, s.inodeMap, n)
  {
    var c, k, t := n / PER_CHUNK, n % PER_CHUNK, Sync(s);
    assert n == c * PER_CHUNK + k;
    assert t.disk[0] == Checkpoint(s.cr);
    var a := s.inodeMap[n];
    assert a == -1 || (IsAt(s.disk, a) && s.disk[a].Node? && a != 0);
    if s.cr[c] != -1 {
      assert s.cr[c] != 0 && t.disk[s.cr[c]] == Imap(ImapChunk(s.inodeMap, c));
      assert ImapChunk(s.inodeMap, c)[k] == a;
    }
  }

  /** Logging an imap chunk. */
  function LogChunk(s: State, c: nat): State
    requires |s.inodeMap| == INODES && |s.cr| == CHUNKS && c < CHUNKS
  {
    State(s.disk + [Imap(ImapChunk(s.inodeMap, c))], s.inodeMap, s.cr[c := |s.disk|])
  }

  lemma LogChunkShaped(s: State, c: nat)
    requires Shaped(s) && c < CHUNKS
    ensures Shaped(LogChunk(s, c)) && ChunkOk(LogChunk(s, c), c)
    ensures forall d: nat :: d < CHUNKS && d != c && ChunkOk(s, d) ==> ChunkOk(LogChunk(s, c), d)
    ensures s.disk <= LogChunk(s, c).disk
  {
    var b := Imap(ImapChunk(s.inodeMap, c));
    assert BlockOk(s.disk, b);
    LogOk(s.disk, b);
    var t := LogChunk(s, c);
    assert AllImaps(t.disk, t.cr) && t.disk[|s.disk|] == b;
    forall d: nat | d < CHUNKS && d != c && ChunkOk(s, d) ensures ChunkOk(t, d) {
      assert t.cr[d] == s.cr[d];
    }
  }

  /** update_imap: log the chunk of each number, each chunk once. */
  function Relog(s: State, inums: seq<nat>, done: seq<nat>): (t: State)
    requires |s.inodeMap| == INODES && |s.cr| == CHUNKS && (forall k :: 0 <= k < |inums| ==> inums[k] < INODES)
    ensures |t.inodeMap| == INODES && |t.cr| == CHUNKS
    decreases |inums|
  {
    if inums == [] then s
    else if Chunk(inums[0]) in done then Relog(s, inums[1..], done)
    else Relog(LogChunk(s, Chunk(inums[0])), inums[1..], done + [Chunk(inums[0])])
  }

  /** Afterwards the chunks of the listed numbers are up to date, and others if they were. */
  lemma {:induction false} RelogShaped(s: State, inums: seq<nat>, done: seq<nat>)
    requires Shaped(s) && (forall k :: 0 <= k < |inums| ==> inums[k] < INODES)
    requires forall c :: c in done ==> c < CHUNKS && ChunkOk(s, c)
    ensures var t := Relog(s, inums, done);
      && Shaped(t) && t.inodeMap == s.inodeMap && s.disk <= t.disk
      && (forall k :: 0 <= k < |inums| ==> ChunkOk(t, Chunk(inums[k])))
      && (forall c: nat :: c < CHUNKS && ChunkOk(s, c) ==> ChunkOk(t, c))
      && (forall c: nat :: c < CHUNKS && (forall k :: 0 <= k < |inums| ==> Chunk(inums[k]) != c) ==> t.cr[c] == s.cr[c])
    decreases |inums|
  {
    hide Shaped, ChunkOk;
    ShapedSizes(s);
    if inums != [] {
      var c, rest := Chunk(inums[0]), inums[1..];
      assert forall k :: 1 <= k < |inums| ==> inums[k] == rest[k - 1];
      if c in done {
        RelogShaped(s, rest, done);
      } else {
        LogChunkShaped(s, c);
        RelogShaped(LogChunk(s, c), rest, done + [c]);
      }
    }
  }

  lemma ShapedSizes(s: State)
    requires Shaped(s)
    ensures |s.inodeMap| == INODES && |s.cr| == CHUNKS && |s.disk| > 0
  {
  }
}
