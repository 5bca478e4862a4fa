/** class LFS of file-lfs/lfs.py, using the in-memory inode map, with checkpoint forcing on or off. */
module Lfs {
  import opened LfsDisk
  import opened LfsNames
  import opened LfsOps
  import opened LfsPaths
  import opened LfsRefs

  /** A return value of 0, of -1, or a failing assertion (or exception) of the simulator. */
  datatype Outcome = Done | Failed | Crashed

  predicate HasRoom(disk: Disk, dir: Inode)
    requires IsDir(disk, dir)
  {
    FindSlot(disk, dir, "-", 0).0 != -1 || dir.size != PTRS
  }

  predicate FreeInode(s: State, n: nat) { n < |s.inodeMap| && s.inodeMap[n] == -1 }

  // ---------- how each operation ends ----------

  ghost function CreateEnds(s: State, path: seq<string>): Outcome
    requires Shaped(s) && path != []
  {
    match WalkPath(s, path)
    case NotFound => Failed
    case Broken => Crashed
    case At(n, name, p, dir) => if n != -1 || !(exists i: nat :: FreeInode(s, i)) || !HasRoom(s.disk, dir)
      then Failed else Done
  }

  /** The regular file a path leads to, or how the operation ends without one. */
  datatype Target = End(outcome: Outcome) | Regular(n: nat, inode: Inode, at: Walk)

  function TargetOf(s: State, path: seq<string>): (t: Target)
    requires Shaped(s) && path != []
    ensures t.Regular? ==> t.n < INODES && t.inode.kind.Reg? && MemInode(s.disk, s.inodeMap, t.n) == Some(t.inode)
    ensures t.Regular? ==>
      t.at.At? && t.at.parent < INODES && Legal(s, t.at.parent, t.at.dir) && IsDir(s.disk, t.at.dir)
    ensures t.Regular? ==> t.at.inum == t.n == Number(s.disk, t.at.dir, t.at.name)
  {
    var w := WalkPath(s, path);
    if w.NotFound? then End(Failed)
    else if w.Broken? then End(Crashed)
    else if w.inum == -1 then End(Failed)
    else
      match MemInode(s.disk, s.inodeMap, w.inum)
      case None => End(Crashed)
      case Some(i) => if i.kind.Reg? then Regular(w.inum, i, w) else End(Failed)
  }

  /** A missing destination directory is not checked for: the simulator then stops with an exception. */
  function LinkEnds(s: State, src: seq<string>, dst: seq<string>): Outcome
    requires Shaped(s) && src != [] && dst != []
  {
    var t, w := TargetOf(s, src), WalkPath(s, dst);
    if t.End? then t.outcome
    else if !w.At? then Crashed
    else if w.inum != -1 || !HasRoom(s.disk, w.dir) then Failed
    else Done
  }

  /** The checkpoint is written at the end of an operation unless forcing is off. */
  function Finished(s: State, noForce: bool): State {
    if noForce || s.disk == [] then s else Sync(s)
  }

  // ---------- what every operation keeps ----------

  ghost predicate Stored(s: State, noForce: bool) {
    Shaped(s) && (!noForce ==> s.disk[0] == Checkpoint(s.cr))
  }

  ghost predicate ChunksCurrent(s: State) { Shaped(s) && ChunksOk(s) }

  /** With forcing off, what a crash sees does not change. */
  ghost predicate SnapshotKept(s: State, t: State) {
    forall n: nat :: n < INODES ==> DiskFile(t.disk, n) == DiskFile(s.disk, n)
  }

  /** With every chunk logged and the checkpoint current, both ways to an inode agree. */
  ghost predicate PathsAgree(s: State)
    requires |s.inodeMap| == INODES
  {
    forall n: nat :: n < INODES ==> DiskInode(s.disk, n) == MemInode(s.disk, s.inodeMap, n)
  }

  lemma ForcedPathsAgree(s: State)
    requires Stored(s, false) && ChunksCurrent(s)
    ensures PathsAgree(s)
  {
    assert Sync(s) == s;
    forall n: nat | n < INODES ensures DiskInode(s.disk, n) == MemInode(s.disk, s.inodeMap, n) {
      SyncAgrees(s, n);
    }
  }

  lemma SyncKeeps(s: State)
    requires Shaped(s)
    ensures Stored(Sync(s), false) && (ChunksCurrent(s) ==> ChunksCurrent(Sync(s)))
  {
    SyncOk(s.disk, s.cr);
    var t := Sync(s);
    SyncedParts(s);
    if ChunksOk(s) {
      forall c: nat | c < CHUNKS ensures ChunkOk(t, c) {
        assert ChunkOk(s, c);
      }
    }
  }

  lemma SyncedParts(s: State)
    requires Shaped(s)
    ensures AllImaps(Sync(s).disk, s.cr) && AllNodes(Sync(s).disk, s.inodeMap)
  {
  }

  /** An operation that only appended, and then perhaps wrote the checkpoint. */
  lemma AfterOperation(s: State, t: State, noForce: bool)
    requires Stored(s, noForce) && Shaped(t) && s.disk <= t.disk
    ensures Stored(Finished(t, noForce), noForce) && (ChunksCurrent(t) ==> ChunksCurrent(Finished(t, noForce)))
    ensures noForce ==> SnapshotKept(s, Finished(t, noForce))
  {
    if noForce {
      forall n: nat | n < INODES
        ensures DiskFile(t.disk, n) == DiskFile(s.disk, n) { SnapshotStable(s.disk, t.disk, n); }
    } else {
      SyncKeeps(t);
    }
  }

  // ---------- where the paths lead afterwards ----------

  lemma FinishedPaths(s: State, t: State, noForce: bool, p: nat, name: string)
    requires Shaped(s) && Shaped(t) && SameNames(s, t, p, name)
    ensures PathsKept(s, Finished(t, noForce), p, name)
    ensures forall d: nat, m, i :: LeadsTo(t, d, m, i) ==> LeadsTo(Finished(t, noForce), d, m, i)
  {
    hide Shaped, SameNames, LeadsTo, IsDirectory, PathsKept;
    var u := Finished(t, noForce);
    if u != t {
      SyncSameNames(t);
      SameDirectories(t, u, INODES, "");
      SameNamesTrans(s, t, u, p, name);
    }
    SameNamesKeepPaths(s, u, p, name);
  }

  lemma SameDirectories(s: State, t: State, p: nat, name: string)
    requires SameNames(s, t, p, name)
    ensures forall d: nat :: IsDirectory(s, d) ==> IsDirectory(t, d)
  {
    hide IsDirectory;
  }

  /** The path leads to an inode of the kind asked for whose number was free; a new directory lists itself as "." and
      its parent as "..". */
  ghost predicate Made(s: State, t: State, path: seq<string>, isFile: bool) {
    exists n: nat, p: nat :: FreeInode(s, n) && LeadsThere(t, path, p, n) && n < |t.inodeMap|
      && MemInode(t.disk, t.inodeMap, n).Some?
      && MemInode(t.disk, t.inodeMap, n).value.kind == (if isFile then Reg else Dir)
      && (!isFile ==> LeadsTo(t, n, ".", n) && LeadsTo(t, n, "..", p))
  }

  lemma CreatePaths(s: State, path: seq<string>, n: nat, isFile: bool, noForce: bool)
    requires Shaped(s) && path != [] && AllTidy(s) && n < INODES && FreeInode(s, n)
    requires var w := WalkPath(s, path); w.At? && w.inum == -1 && AddEntry(s.disk, w.dir, w.name, n).Some?
    ensures var w := WalkPath(s, path);
      var t := Finished(CreateState(s, w.parent, w.dir, w.name, n, isFile), noForce);
      PathsKept(s, t, w.parent, w.name) && (NoDashes(path) ==> Made(s, t, path, isFile))
  {
    hide Shaped, AllTidy, AddEntry, CreateState, Number, LeadsTo, SameNames, PathsKept, LeadsThere, WalkPath, IsDir,
      IsDirectory, Legal, Finished, NewNode, Rewritten;
    var w := WalkPath(s, path);
    FreeIsNoDirectory(s, n);
    LegalIsDirectory(s, w.parent, w.dir);
    var t := CreateState(s, w.parent, w.dir, w.name, n, isFile);
    CreateSameNames(s, w.parent, w.dir, w.name, n, isFile);
    var u := Finished(t, noForce);
    FinishedPaths(s, t, noForce, w.parent, w.name);
    CreateFacts(s, w.parent, w.dir, w.name, n, isFile);
    FinishedInode(t, noForce, n);
    NewKind(isFile, |s.disk| + if isFile then 0 else 1);
    if NoDashes(path) { PathNow(s, u, path, n); }
  }

  lemma FreeIsNoDirectory(s: State, n: nat)
    requires FreeInode(s, n)
    ensures !IsDirectory(s, n)
  {
  }

  lemma NewKind(isFile: bool, a: int)
    ensures NewNode(isFile, a).kind == if isFile then Reg else Dir
  {
  }

  lemma FinishedInode(t: State, noForce: bool, n: nat)
    requires Shaped(t) && n < |t.inodeMap|
    ensures |Finished(t, noForce).inodeMap| == |t.inodeMap|
    ensures MemInode(Finished(t, noForce).disk, t.inodeMap, n) == MemInode(t.disk, t.inodeMap, n)
    ensures Finished(t, noForce).inodeMap == t.inodeMap
  {
    hide BlockOk;
  }

  lemma LinkPaths(s: State, src: seq<string>, dst: seq<string>, noForce: bool)
    requires Shaped(s) && src != [] && dst != [] && AllTidy(s)
    requires var f, w := TargetOf(s, src), WalkPath(s, dst);
      f.Regular? && w.At? && w.inum == -1 && AddEntry(s.disk, w.dir, w.name, f.n).Some?
    ensures var f, w := TargetOf(s, src), WalkPath(s, dst);
      var t := Finished(LinkState(s, w.parent, w.dir, w.name, f.n, f.inode), noForce);
      PathsKept(s, t, w.parent, w.name) && (NoDashes(dst) ==> LeadsThere(t, dst, w.parent, f.n))
  {
    hide Shaped, AllTidy, AddEntry, LinkState, Number, LeadsTo, SameNames, PathsKept, LeadsThere, WalkPath, IsDir,
      IsDirectory, Legal, Finished, TargetOf;
    var f, w := TargetOf(s, src), WalkPath(s, dst);
    var t := LinkState(s, w.parent, w.dir, w.name, f.n, f.inode);
    LinkSameNames(s, w.parent, w.dir, w.name, f.n, f.inode);
    FinishedPaths(s, t, noForce, w.parent, w.name);
    if NoDashes(dst) { PathNow(s, Finished(t, noForce), dst, f.n); }
  }

  lemma DeletePaths(s: State, path: seq<string>, noForce: bool)
    requires Shaped(s) && path != [] && AllTidy(s)
    requires var f := TargetOf(s, path); f.Regular? && FindSlot(s.disk, f.at.dir, f.at.name, 0).0 != -1
    ensures var f := TargetOf(s, path);
      var t := Finished(DeleteState(s, f.at.parent, f.at.dir, f.at.name, f.n, f.inode), noForce);
      PathsKept(s, t, f.at.parent, f.at.name) && (NoDashes(path) ==> LeadsThere(t, path, f.at.parent, -1))
  {
    hide Shaped, AllTidy, FindSlot, DeleteState, Number, LeadsTo, SameNames, PathsKept, LeadsThere, WalkPath, IsDir,
      IsDirectory, Legal, Finished;
    var f := TargetOf(s, path);
    var t := DeleteState(s, f.at.parent, f.at.dir, f.at.name, f.n, f.inode);
    DeleteSameNames(s, f.at.parent, f.at.dir, f.at.name, f.n, f.inode);
    FinishedPaths(s, t, noForce, f.at.parent, f.at.name);
    if NoDashes(path) { PathNow(s, Finished(t, noForce), path, -1); }
  }

  lemma WritePaths(s: State, n: nat, file: Inode, offset: nat, contents: seq<string>, noForce: bool)
    requires Shaped(s) && n < INODES && MemInode(s.disk, s.inodeMap, n) == Some(file) && file.kind.Reg? && offset < PTRS
    requires |s.inodeMap| == INODES && |s.cr| == CHUNKS && |file.pointers| == PTRS
    ensures PathsKept(s, Finished(WriteState(s, n, file, offset, contents), noForce), INODES, "")
  {
    hide Shaped, WriteState, LeadsTo, SameNames, PathsKept, IsDirectory, Finished;
    WriteSameNames(s, n, file, offset, contents);
    FinishedPaths(s, WriteState(s, n, file, offset, contents), noForce, INODES, "");
  }

  class LFS {
    const noForceCheckpoints: bool
    const sequential: bool
    var disk: Disk
    var cr: seq<int>
    var inodeMap: seq<int>

    function Now(): State
      reads this
    {
      State(disk, inodeMap, cr)
    }

    ghost predicate Valid()
      reads this
    {
      Stored(Now(), noForceCheckpoints) && AllTidy(Now())
    }

    constructor (noForceCheckpoints: bool, sequential: bool)
      ensures Valid() && ChunksCurrent(Now()) && PathsAgree(Now()) && Counted(Now())
      ensures this.noForceCheckpoints == noForceCheckpoints && this.sequential == sequential
    {
      this.noForceCheckpoints := noForceCheckpoints;
      this.sequential := sequential;
      cr := Initial().cr;
      disk := Initial().disk;
      inodeMap := Initial().inodeMap;
      InitialOk();
      InitialTidy();
      InitialCounted();
      ForcedPathsAgree(Initial());
    }

    method Log(block: Block) returns (newAddress: nat)
      modifies this`disk
      ensures disk == old(disk) + [block] && newAddress == |old(disk)|
    {
      newAddress := |disk|;
      disk := disk + [block];
    }

    method CrSync()
      requires |disk| > 0
      modifies this`disk
      ensures Now() == Sync(old(Now()))
    {
      disk := disk[0 := Checkpoint(cr)];
    }

    method LogImapChunk(c: nat)
      requires |inodeMap| == INODES && |cr| == CHUNKS && c < CHUNKS
      modifies this`disk, this`cr
      ensures Now() == LogChunk(old(Now()), c)
    {
      var a := Log(Imap(ImapChunk(inodeMap, c)));
      cr := cr[c := |disk| - 1];
    }

    method UpdateImap(inums: seq<nat>)
      requires |inodeMap| == INODES && |cr| == CHUNKS && (forall k :: 0 <= k < |inums| ==> inums[k] < INODES)
      modifies this`disk, this`cr
      ensures Now() == Relog(old(Now()), inums, [])
    {
      var chunkList: seq<nat> := [];
      for k := 0 to |inums|
        invariant |cr| == CHUNKS
        invariant Relog(Now(), inums[k..], chunkList) == Relog(old(Now()), inums, [])
      {
        var cnum := Chunk(inums[k]);
        assert inums[k..][0] == inums[k] && inums[k..][1..] == inums[k + 1..];
        if cnum !in chunkList {
          chunkList := chunkList + [cnum];
          LogImapChunk(cnum);
        }
      }
    }

    /** The first free number, or any free one; it holds a placeholder until it is mapped. */
    method AllocateInode() returns (n: int)
      requires |inodeMap| == INODES
      modifies this`inodeMap
      ensures n == -1 <==> !(exists i: nat :: FreeInode(old(Now()), i))
      ensures n == -1 ==> inodeMap == old(inodeMap)
      ensures n != -1 ==> n >= 0 && FreeInode(old(Now()), n) && inodeMap == old(inodeMap)[n := 1]
      ensures n != -1 && sequential ==> forall i: nat :: i < n ==> !FreeInode(old(Now()), i)
    {
      var first: int := -1;
      for i := 0 to INODES
        invariant first == -1
        invariant forall j: nat :: j < i ==> !FreeInode(Now(), j)
      {
        if inodeMap[i] == -1 {
          first := i;
          break;
        }
      }
      if first == -1 { return -1; }
      n := first;
      if !sequential {
        assert FreeInode(Now(), first);
        var any: nat :| FreeInode(Now(), any);
        n := any;
      }
      assert FreeInode(Now(), n);
      inodeMap := inodeMap[n := 1];
    }

    method Lookup(parent: nat, name: string) returns (ok: bool, n: int, dir: Inode)
      requires Valid() && parent < INODES
      ensures ok <==> MemInode(disk, inodeMap, parent).Some? && MemInode(disk, inodeMap, parent).value.kind.Dir?
      ensures ok ==> Legal(Now(), parent, dir) && IsDir(disk, dir) && n == Number(disk, dir, name)
    {
      var a := inodeMap[parent];
      dir := Inode(Reg, 0, 0, []);
      n := -1;
      assert AllNodes(disk, inodeMap);
      if a == -1 { return false, n, dir; }
      dir := disk[a].inode;
      if !dir.kind.Dir? { return false, n, dir; }
      IsDirOf(Now(), parent, dir);
      ok := true;
      for k := 0 to PTRS
        invariant forall j: nat :: j < k && j < dir.size ==> FindName(EntriesAt(disk, dir, j), name) == -1
      {
        var address := dir.pointers[k];
        if address != -1 {
          assert PointsAtDir(disk, address);
          var i := FindName(disk[address].entries, name);
          if i != -1 {
            FirstBlock(disk, dir, name, 0, k);
            n := disk[address].entries[i].1;
            return;
          }
        }
      }
      NoBlock(disk, dir, name, 0);
    }

    method Walking(path: seq<string>) returns (w: Walk)
      requires Valid() && path != []
      ensures w == WalkPath(Now(), path)
    {
      hide Stored, Shaped, Number, IsDir, MemInode, AllTidy;
      ValidShaped(Now(), noForceCheckpoints);
      if path[0] != "" { return NotFound; }
      var parent: nat := 0;
      var i, last := 1, |path| - 1;
      while i < last
        invariant parent < INODES && (last == 0 ==> i == 1 && parent == 0) && (last > 0 ==> 1 <= i <= last)
        invariant last > 0 ==> WalkFrom(Now(), parent, path[i..]) == WalkFrom(Now(), 0, path[1..])
      {
        assert path[i..][0] == path[i] && path[i..][1..] == path[i + 1..];
        var ok, n, dir := Lookup(parent, path[i]);
        if !ok { return Broken; }
        NumberInRangeOf(Now(), parent, dir, path[i]);
        if n == -1 { return NotFound; }
        parent := n;
        i := i + 1;
      }
      assert path[last..] == [path[last]];
      var ok, n, dir := Lookup(parent, path[last]);
      if !ok { return Broken; }
      NumberInRangeOf(Now(), parent, dir, path[last]);
      return At(n, path[last], parent, dir);
    }

    method FindMatchingDirSlot(name: string, dir: Inode) returns (block: int, slot: int)
      requires IsDir(disk, dir)
      ensures (block, slot) == FindSlot(disk, dir, name, 0)
    {
      for k := 0 to dir.size
        invariant forall j: nat :: j < k ==> FindName(EntriesAt(disk, dir, j), name) == -1
      {
        var entries := EntriesAt(disk, dir, k);
        var i := 0;
        while i < |entries|
          invariant i <= |entries| && FindName(entries, name) == FindNameFrom(entries, name, i)
        {
          if entries[i].0 == name {
            FirstBlock(disk, dir, name, 0, k);
            return k, i;
          }
          i := i + 1;
        }
      }
      NoBlock(disk, dir, name, 0);
      return -1, -1;
    }

    method AddDirEntry(dir: Inode, name: string, n: int) returns (e: Option<(nat, nat, Entries)>)
      requires IsDir(disk, dir)
      ensures e == AddEntry(disk, dir, name, n)
    {
      hide InodeOk, FindSlot;
      var k, i := FindMatchingDirSlot("-", dir);
      if k != -1 {
        EntriesLength(disk, dir, k);
        e := Some((k, dir.size, EntriesAt(disk, dir, k)[i := (name, n)]));
      } else if dir.size != PTRS {
        e := Some((dir.size, dir.size + 1, Empty()[0 := (name, n)]));
      } else {
        e := None;
      }
    }

    method Finish()
      requires |disk| > 0
      modifies this`disk
      ensures Now() == Finished(old(Now()), noForceCheckpoints)
    {
      if !noForceCheckpoints { CrSync(); }
    }

    /** __file_create. With forcing off nothing a crash can see changes, whether it fails or not; the chunks of the
        inode map stay current. */
    method FileCreate(path: seq<string>, isFile: bool) returns (rc: Outcome)
      requires Valid() && path != []
      modifies this
      ensures Valid() && rc == CreateEnds(old(Now()), path)
      ensures rc != Done ==> Now() == old(Now())
      ensures rc == Done ==>
        CreatedBy(old(Now()), Now(), WalkPath(old(Now()), path), isFile, noForceCheckpoints, sequential)
      ensures rc == Done ==> var w := WalkPath(old(Now()), path);
        PathsKept(old(Now()), Now(), w.parent, w.name) && (NoDashes(path) ==> Made(old(Now()), Now(), path, isFile))
      ensures noForceCheckpoints ==> SnapshotKept(old(Now()), Now())
      ensures ChunksCurrent(old(Now())) ==> ChunksCurrent(Now())
      ensures Counted(old(Now())) && path[|path| - 1] != "-" ==> Counted(Now())
    {
      hide Stored, Shaped, AllTidy, Counted, WalkPath, AddEntry, Number, SnapshotKept, ChunksCurrent, CreateState,
        Relog, Legal, IsDir, HasRoom, Finished, PathsKept, Made, NoDashes;
      ghost var s := Now();
      ValidShaped(s, noForceCheckpoints);
      NothingChanged(s);
      var w := Walking(path);
      match w {
        case NotFound => return Failed;
        case Broken => return Crashed;
        case At(inum, name, p, dir) =>
          if inum != -1 { return Failed; }
          LegalMapped(s, p, dir);
          var n := AllocateInode();
          if n == -1 { return Failed; }
          var e := AddDirEntry(dir, name, n);
          RoomForEntry(disk, dir, name, n);
          if e.None? {
            inodeMap := inodeMap[n := -1];
            assert inodeMap == s.inodeMap;
            return Failed;
          }
          SlotInRange(s.disk, dir, name, n);
          LogNewFile(s, p, dir, e.value, n, isFile);
          UpdateImap([p, n]);
          assert Now() == CreateState(s, p, dir, name, n, isFile) by { CreateIs(s, p, dir, name, n, isFile); }
          CreateShaped(s, p, dir, name, n, isFile);
          AfterOperation(s, Now(), noForceCheckpoints);
          CreateTidy(s, p, dir, name, n, isFile);
          if Counted(s) && name != "-" {
            CreateCounted(s, p, dir, name, n, isFile);
            FinishedCounted(Now(), noForceCheckpoints);
          }
          FinishedTidy(Now(), noForceCheckpoints);
          CurrentAfter(s, Now());
          CreatePaths(s, path, n, isFile, noForceCheckpoints);
          Finish();
          return Done;
      }
    }

    /** The blocks a create logs before the imap chunks: directory block, a new directory's own block, both inodes. */
    method LogNewFile(ghost s: State, p: nat, dir: Inode, e: (nat, nat, Entries), n: nat, isFile: bool)
      requires |inodeMap| == INODES && p < INODES && n < INODES && n != p && |dir.pointers| == PTRS && e.0 < PTRS
      requires disk == s.disk && cr == s.cr && |s.inodeMap| == INODES && inodeMap == s.inodeMap[n := 1]
      modifies this`disk, this`inodeMap
      ensures Now() == Logged(s, p, dir, e, n, isFile)
    {
      var (k, size, entries) := e;
      var blockAddress := Log(DirBlock(entries));
      var dir' := SetBlock(dir, k, blockAddress, size);
      if !isFile {
        dir' := dir'.(refs := dir'.refs + 1);
        var own := Log(DirBlock(NewDirEntries(p, n)));
      }
      var node := NewNode(isFile, |disk| - 1);
      var parentAddress := Log(Node(dir'));
      var nodeAddress := Log(Node(node));
      inodeMap := inodeMap[p := parentAddress];
      inodeMap := inodeMap[n := nodeAddress];
      assert inodeMap == s.inodeMap[p := parentAddress][n := nodeAddress];
    }

    /** file_link: the chunk of the linked file's number stays current exactly when it is the directory's. */
    method FileLink(src: seq<string>, dst: seq<string>) returns (rc: Outcome)
      requires Valid() && src != [] && dst != []
      modifies this
      ensures Valid() && rc == LinkEnds(old(Now()), src, dst)
      ensures rc != Done ==> Now() == old(Now())
      ensures rc == Done ==> LinkedBy(old(Now()), Now(), src, dst, noForceCheckpoints)
      ensures rc == Done ==> var w := WalkPath(old(Now()), dst);
        && PathsKept(old(Now()), Now(), w.parent, w.name)
        && (NoDashes(dst) ==> LeadsThere(Now(), dst, w.parent, TargetOf(old(Now()), src).n))
      ensures noForceCheckpoints ==> SnapshotKept(old(Now()), Now())
      ensures Counted(old(Now())) && dst[|dst| - 1] != "-" ==> Counted(Now())
    {
      hide Stored, Shaped, AllTidy, Counted, WalkPath, AddEntry, Number, SnapshotKept, ChunksCurrent, LinkState, Relog,
        Legal, IsDir, HasRoom, Finished, TargetOf, PathsKept, LeadsThere, NoDashes;
      ghost var s := Now();
      ValidShaped(s, noForceCheckpoints);
      NothingChanged(s);
      var t := FindTarget(src);
      if t.End? { EndsBadly(s, src); return t.outcome; }
      var w := Walking(dst);
      if !w.At? { return Crashed; }
      if w.inum != -1 { return Failed; }
      var e := AddDirEntry(w.dir, w.name, t.n);
      RoomForEntry(disk, w.dir, w.name, t.n);
      if e.None? { return Failed; }
      LegalMapped(s, w.parent, w.dir);
      var (k, size, entries) := e.value;
      SlotInRange(s.disk, w.dir, w.name, t.n);
      var blockAddress := Log(DirBlock(entries));
      var dirAddress := Log(Node(SetBlock(w.dir, k, blockAddress, size)));
      var srcAddress := Log(Node(t.inode.(refs := t.inode.refs + 1)));
      inodeMap := inodeMap[w.parent := dirAddress];
      inodeMap := inodeMap[t.n := srcAddress];
      UpdateImap([w.parent]);
      assert Now() == LinkState(s, w.parent, w.dir, w.name, t.n, t.inode)
        by { LinkIs(s, w.parent, w.dir, w.name, t.n, t.inode); }
      LinkKeeps(s, w.parent, w.dir, w.name, t.n, t.inode, noForceCheckpoints);
      LinkShapedOnly(s, w.parent, w.dir, w.name, t.n, t.inode);
      LinkTidy(s, w.parent, w.dir, w.name, t.n, t.inode);
      if Counted(s) && w.name != "-" {
        LinkCounted(s, w.parent, w.dir, w.name, t.n, t.inode);
        FinishedCounted(Now(), noForceCheckpoints);
      }
      FinishedTidy(Now(), noForceCheckpoints);
      LinkPaths(s, src, dst, noForceCheckpoints);
      Finish();
      return Done;
    }

    method FindTarget(path: seq<string>) returns (t: Target)
      requires Valid() && path != []
      ensures t == TargetOf(Now(), path)
    {
      hide Stored, Shaped, AllTidy, WalkPath, Number, Legal, IsDir;
      ValidShaped(Now(), noForceCheckpoints);
      var w := Walking(path);
      if w.NotFound? { return End(Failed); }
      if w.Broken? { return End(Crashed); }
      if w.inum == -1 { return End(Failed); }
      match MemInode(disk, inodeMap, w.inum) {
        case None => return End(Crashed);
        case Some(i) => if i.kind.Reg? { return Regular(w.inum, i, w); } else { return End(Failed); }
      }
    }

    method FileDelete(path: seq<string>) returns (rc: Outcome)
      requires Valid() && path != []
      modifies this
      ensures Valid() && rc == (if TargetOf(old(Now()), path).End? then TargetOf(old(Now()), path).outcome else Done)
      ensures rc != Done ==> Now() == old(Now())
      ensures rc == Done ==> DeletedBy(old(Now()), Now(), path, noForceCheckpoints)
      ensures rc == Done ==> var w := TargetOf(old(Now()), path).at;
        && PathsKept(old(Now()), Now(), w.parent, w.name)
        && (NoDashes(path) ==> LeadsThere(Now(), path, w.parent, -1))
      ensures noForceCheckpoints ==> SnapshotKept(old(Now()), Now())
      ensures ChunksCurrent(old(Now())) ==> ChunksCurrent(Now())
      ensures Counted(old(Now())) ==> Counted(Now())
    {
      hide Stored, Shaped, AllTidy, Counted, WalkPath, FindSlot, SnapshotKept, ChunksCurrent, DeleteState, Relog, Legal,
        IsDir, Finished, TargetOf, PathsKept, LeadsThere, NoDashes;
      ghost var s := Now();
      ValidShaped(s, noForceCheckpoints);
      NothingChanged(s);
      var t := FindTarget(path);
      if t.End? { EndsBadly(s, path); return t.outcome; }
      var w, file := t.at, t.inode;
      LegalMapped(s, w.parent, w.dir);
      if file.refs == 1 { inodeMap := inodeMap[t.n := -1]; }
      var k, i := FindMatchingDirSlot(w.name, w.dir);
      NumberFound(s.disk, w.dir, w.name);
      assert k != -1;
      EntriesLength(disk, w.dir, k);
      var dirAddress := Log(DirBlock(EntriesAt(disk, w.dir, k)[i := ("-", -1)]));
      var parentAddress := Log(Node(SetBlock(w.dir, k, dirAddress, w.dir.size)));
      inodeMap := inodeMap[w.parent := parentAddress];
      if file.refs > 1 {
        var a := Log(Node(file.(refs := file.refs - 1)));
        inodeMap := inodeMap[t.n := a];
      }
      UpdateImap([t.n, w.parent]);
      assert Now() == DeleteState(s, w.parent, w.dir, w.name, t.n, file)
        by { DeleteIs(s, w.parent, w.dir, w.name, t.n, file); }
      DifferentKinds(s, w.parent, w.dir, t.n, file);
      DeleteShaped(s, w.parent, w.dir, w.name, t.n, file);
      AfterOperation(s, Now(), noForceCheckpoints);
      DeleteTidy(s, w.parent, w.dir, w.name, t.n, file);
      if Counted(s) {
        DeleteCounted(s, w.parent, w.dir, w.name, t.n, file);
        FinishedCounted(Now(), noForceCheckpoints);
      }
      FinishedTidy(Now(), noForceCheckpoints);
      DeletePaths(s, path, noForceCheckpoints);
      CurrentAfter(s, Now());
      Finish();
      return Done;
    }

    /** file_write: as many blocks as fit; the number written is returned. */
    method FileWrite(path: seq<string>, offset: int, contents: seq<string>) returns (rc: Outcome, written: nat)
      requires Valid() && path != []
      modifies this
      ensures var t := TargetOf(old(Now()), path);
        Valid() && rc == if t.End? then t.outcome else if 0 <= offset < PTRS then Done else Failed
      ensures rc != Done ==> Now() == old(Now())
      ensures rc == Done ==> 0 <= offset < PTRS && written == Fits(offset, contents)
      ensures rc == Done ==> WrittenBy(old(Now()), Now(), path, offset, contents, noForceCheckpoints)
      ensures rc == Done ==> PathsKept(old(Now()), Now(), INODES, "")
      ensures noForceCheckpoints ==> SnapshotKept(old(Now()), Now())
      ensures ChunksCurrent(old(Now())) ==> ChunksCurrent(Now())
      ensures Counted(old(Now())) ==> Counted(Now())
    {
      hide Stored, Shaped, AllTidy, Counted, WalkPath, SnapshotKept, ChunksCurrent, Legal, IsDir, Finished, TargetOf,
        WriteState, Repointed, PathsKept;
      ghost var s := Now();
      ValidShaped(s, noForceCheckpoints);
      NothingChanged(s);
      written := 0;
      var t := FindTarget(path);
      if t.End? { EndsBadly(s, path); return t.outcome, 0; }
      if offset < 0 || offset >= PTRS { return Failed, 0; }
      PointerInRange(s, t.n, t.inode, 0);
      written := WriteBlocks(t.n, t.inode, offset, contents);
      WriteShaped(s, t.n, t.inode, offset, contents);
      AfterOperation(s, Now(), noForceCheckpoints);
      WriteTidy(s, t.n, t.inode, offset, contents);
      WriteRefs(s, t.n, t.inode, offset, contents);
      WritePaths(s, t.n, t.inode, offset, contents, noForceCheckpoints);
      if Counted(s) { FinishedCounted(Now(), noForceCheckpoints); }
      FinishedTidy(Now(), noForceCheckpoints);
      CurrentAfter(s, Now());
      Finish();
      rc := Done;
    }

    /** The part of file_write that logs: data blocks, the new inode and its imap chunk. */
    method WriteBlocks(n: nat, inode: Inode, offset: nat, contents: seq<string>) returns (written: nat)
      requires |inodeMap| == INODES && |cr| == CHUNKS && n < INODES && |inode.pointers| == PTRS && offset < PTRS
      modifies this
      ensures written == Fits(offset, contents) && Now() == WriteState(old(Now()), n, inode, offset, contents)
    {
      hide Repointed, LogChunk, Blocks;
      ghost var s := Now();
      var currentLogPtr := |disk|;
      var writes := Planned(offset, currentLogPtr, |contents|);
      written := |writes|;
      LogData(contents[..written]);
      var pointers := Repoint(inode.pointers, offset, currentLogPtr, writes);
      var size := if inode.size < offset + written then offset + written else inode.size;
      var a := Log(Node(inode.(size := size, pointers := pointers)));
      inodeMap := inodeMap[n := a];
      LogImapChunk(Chunk(n));
      WriteIs(s, n, inode, offset, contents);
    }

    method LogData(contents: seq<string>)
      modifies this`disk
      ensures disk == old(disk) + Blocks(contents)
    {
      for i := 0 to |contents|
        invariant disk == old(disk) + Blocks(contents[..i])
      {
        var a := Log(Data(contents[i]));
        assert contents[..i + 1][..i] == contents[..i];
      }
      assert contents[..|contents|] == contents;
    }

    method Repoint(pointers: seq<int>, offset: nat, first: nat, writes: seq<(nat, nat)>) returns (r: seq<int>)
      requires offset + |writes| <= |pointers| && forall i :: 0 <= i < |writes| ==> writes[i] == (offset + i, first + i)
      ensures r == Repointed(pointers, offset, |writes|, first)
    {
      hide Repointed;
      r := pointers;
      RepointedNone(pointers, offset, first);
      for i := 0 to |writes|
        invariant r == Repointed(pointers, offset, i, first)
      {
        RepointedStep(pointers, offset, i, first);
        r := r[writes[i].0 := writes[i].1];
      }
    }

    /** The loop that plans the writes: consecutive offsets and log addresses, up to the end of the file's pointers. */
    method Planned(offset: nat, logPtr: nat, blocks: nat) returns (writes: seq<(nat, nat)>)
      requires offset < PTRS
      ensures |writes| == if blocks <= PTRS - offset then blocks else PTRS - offset
      ensures forall i :: 0 <= i < |writes| ==> writes[i] == (offset + i, logPtr + i)
    {
      writes := [];
      var currentOffset, currentLogPtr := offset, logPtr;
      while currentOffset < PTRS && currentOffset < offset + blocks
        invariant currentOffset == offset + |writes| <= PTRS && |writes| <= blocks && currentLogPtr == logPtr + |writes|
        invariant forall i :: 0 <= i < |writes| ==> writes[i] == (offset + i, logPtr + i)
      {
        writes := writes + [(currentOffset, currentLogPtr)];
        currentOffset, currentLogPtr := currentOffset + 1, currentLogPtr + 1;
      }
    }

    /** sync: the checkpoint is written, after which the disk path and the inode map lead to the same inodes. */
    method SyncOperation()
      requires Valid()
      modifies this`disk
      ensures Valid() && Now() == Sync(old(Now()))
      ensures ChunksCurrent(old(Now())) ==> ChunksCurrent(Now()) && PathsAgree(Now())
      ensures Counted(old(Now())) ==> Counted(Now())
    {
      hide Shaped, AllTidy, Counted, ChunksCurrent, PathsAgree;
      ghost var s := Now();
      ValidShaped(s, noForceCheckpoints);
      SyncKeeps(s);
      SyncTidy(s);
      SyncRefs(s);
      CrSync();
      if ChunksCurrent(s) { ForcedPathsAgree(Now()); }
    }
  }

  lemma FinishedTidy(s: State, noForce: bool)
    requires Shaped(s) && AllTidy(s)
    ensures AllTidy(Finished(s, noForce))
  {
    hide Shaped, AllTidy;
    if !noForce { SyncTidy(s); }
  }

  lemma FinishedCounted(s: State, noForce: bool)
    requires Shaped(s) && AllTidy(s) && Counted(s)
    ensures Counted(Finished(s, noForce))
  {
    hide Shaped, AllTidy, Counted;
    if !noForce { SyncRefs(s); }
  }

  lemma ValidShaped(s: State, noForce: bool)
    requires Stored(s, noForce)
    ensures Shaped(s) && |s.disk| > 0 && |s.inodeMap| == INODES && |s.cr| == CHUNKS
  {
  }

  lemma NumberInRangeOf(s: State, p: nat, dir: Inode, name: string)
    requires Legal(s, p, dir) && IsDir(s.disk, dir)
    ensures -1 <= Number(s.disk, dir, name) < INODES && MemInode(s.disk, s.inodeMap, p) == Some(dir) && dir.kind.Dir?
  {
    NumberInRange(s.disk, dir, name);
  }

  lemma NothingChanged(s: State)
    ensures SnapshotKept(s, s)
  {
  }

  lemma LegalMapped(s: State, p: nat, dir: Inode)
    requires Legal(s, p, dir) && IsDir(s.disk, dir)
    ensures s.inodeMap[p] != -1 && |dir.pointers| == PTRS && dir.size <= PTRS
  {
    IsDirOf(s, p, dir);
  }

  lemma RoomForEntry(disk: Disk, dir: Inode, name: string, n: int)
    requires IsDir(disk, dir)
    ensures AddEntry(disk, dir, name, n).Some? <==> HasRoom(disk, dir)
  {
    hide FindSlot, InodeOk;
  }

  lemma SlotInRange(disk: Disk, dir: Inode, name: string, n: int)
    requires IsDir(disk, dir) && AddEntry(disk, dir, name, n).Some?
    ensures AddEntry(disk, dir, name, n).value.0 < PTRS
  {
  }

  lemma CurrentAfter(s: State, t: State)
    requires Shaped(t) && (Shaped(s) && ChunksOk(s) ==> ChunksOk(t))
    ensures ChunksCurrent(s) ==> ChunksCurrent(t)
  {
  }

  lemma EndsBadly(s: State, path: seq<string>)
    requires Shaped(s) && path != [] && TargetOf(s, path).End?
    ensures TargetOf(s, path).outcome != Done
  {
  }

  lemma DifferentKinds(s: State, p: nat, dir: Inode, n: nat, file: Inode)
    requires Legal(s, p, dir) && n < INODES && MemInode(s.disk, s.inodeMap, n) == Some(file) && file.kind.Reg?
    ensures n != p
  {
  }

  lemma LinkIs(s: State, p: nat, dir: Inode, name: string, n: nat, src: Inode)
    requires Legal(s, p, dir) && IsDir(s.disk, dir) && AddEntry(s.disk, dir, name, n).Some? && n < INODES
    ensures |s.inodeMap| == INODES && |s.cr| == CHUNKS && |dir.pointers| == PTRS
    ensures AddEntry(s.disk, dir, name, n).value.0 < PTRS
    ensures var (k, size, entries) := AddEntry(s.disk, dir, name, n).value;
      LinkState(s, p, dir, name, n, src) == Relog(State(
        s.disk + [DirBlock(entries)] + [Node(SetBlock(dir, k, |s.disk|, size))] + [Node(src.(refs := src.refs + 1))],
        s.inodeMap[p := |s.disk| + 1][n := |s.disk| + 2], s.cr), [p], [])
  {
    hide AddEntry, Relog;
    AddEntryOk(s.disk, dir, name, n);
  }

  lemma NumberFound(disk: Disk, dir: Inode, name: string)
    requires IsDir(disk, dir) && Number(disk, dir, name) != -1
    ensures FindSlot(disk, dir, name, 0).0 != -1
  {
  }

  lemma LinkKeeps(s: State, p: nat, dir: Inode, name: string, n: nat, src: Inode, noForce: bool)
    requires Stored(s, noForce) && Legal(s, p, dir) && IsDir(s.disk, dir)
    requires AddEntry(s.disk, dir, name, n).Some? && n < INODES
    requires MemInode(s.disk, s.inodeMap, n) == Some(src) && src.kind.Reg?
    ensures var t := LinkState(s, p, dir, name, n, src);
      && |t.disk| > 0 && Stored(Finished(t, noForce), noForce)
      && (ChunksCurrent(s) ==> (ChunksCurrent(Finished(t, noForce)) <==> Chunk(n) == Chunk(p)))
      && (noForce ==> SnapshotKept(s, Finished(t, noForce)))
  {
    hide AddEntry, LinkState, Legal, IsDir, MemInode, ChunkOk, SnapshotKept, DiskOk, AllImaps, AllNodes;
    LegalShaped(s, p, dir);
    var t := LinkState(s, p, dir, name, n, src);
    LinkShapedOnly(s, p, dir, name, n, src);
    ShapedSizes(t);
    AfterOperation(s, t, noForce);
    if ChunksCurrent(s) {
      LinkShaped(s, p, dir, name, n, src);
      if Chunk(n) == Chunk(p) {
        assert ChunksCurrent(t);
      } else {
        StaleAfterSync(t, Chunk(n));
        NotCurrent(Finished(t, noForce), Chunk(n));
      }
    }
  }

  lemma NotCurrent(t: State, c: nat)
    requires |t.inodeMap| == INODES && |t.cr| == CHUNKS && c < CHUNKS && !ChunkOk(t, c)
    ensures !ChunksCurrent(t)
  {
  }

  /** Writing the checkpoint does not bring a chunk up to date. */
  lemma StaleAfterSync(t: State, c: nat)
    requires Shaped(t) && c < CHUNKS && !ChunkOk(t, c)
    ensures |t.cr| == CHUNKS && |t.inodeMap| == INODES && !ChunkOk(Sync(t), c)
  {
  }

  lemma DeleteIs(s: State, p: nat, dir: Inode, name: string, n: nat, file: Inode)
    requires Legal(s, p, dir) && IsDir(s.disk, dir) && FindSlot(s.disk, dir, name, 0).0 != -1 && n < INODES
    ensures |s.inodeMap| == INODES && |s.cr| == CHUNKS && |dir.pointers| == PTRS
    ensures var (k, i) := FindSlot(s.disk, dir, name, 0);
      |EntriesAt(s.disk, dir, k)| == PTRS
      && var d := s.disk + [DirBlock(EntriesAt(s.disk, dir, k)[i := ("-", -1)])] +
        [Node(SetBlock(dir, k, |s.disk|, dir.size))];
      var map1 := (if file.refs == 1 then s.inodeMap[n := -1] else s.inodeMap)[p := |s.disk| + 1];
      DeleteState(s, p, dir, name, n, file) == Relog(
        if file.refs > 1 then State(d + [Node(file.(refs := file.refs - 1))], map1[n := |s.disk| + 2], s.cr)
          else State(d, map1, s.cr), [n, p], [])
  {
    hide FindSlot, Relog;
  }

  lemma RepointedStep(pointers: seq<int>, offset: nat, i: nat, first: nat)
    requires offset + i < |pointers|
    ensures Repointed(pointers, offset, i + 1, first) == Repointed(pointers, offset, i, first)[offset + i := first + i]
  {
  }

  lemma RepointedNone(pointers: seq<int>, offset: nat, first: nat)
    requires offset <= |pointers|
    ensures Repointed(pointers, offset, 0, first) == pointers
  {
  }

  lemma WriteIs(s: State, n: nat, file: Inode, offset: nat, contents: seq<string>)
    requires |s.inodeMap| == INODES && |s.cr| == CHUNKS && n < INODES && |file.pointers| == PTRS && offset < PTRS
    ensures var w := Fits(offset, contents);
      var f := file.(size := if file.size < offset + w then offset + w else file.size,
                     pointers := Repointed(file.pointers, offset, w, |s.disk|));
      WriteState(s, n, file, offset, contents) ==
        LogChunk(State(s.disk + Blocks(contents[..w]) + [Node(f)], s.inodeMap[n := |s.disk| + w], s.cr), Chunk(n))
  {
  }

  /** The state after LogNewFile. */
  function Logged(s: State, p: nat, dir: Inode, e: (nat, nat, Entries), n: nat, isFile: bool): State
    requires |s.inodeMap| == INODES && p < INODES && n < INODES && |dir.pointers| == PTRS && e.0 < PTRS
  {
    var (k, size, entries) := e;
    var dir' := SetBlock(dir, k, |s.disk|, size).(refs := if isFile then dir.refs else dir.refs + 1);
    var own := if isFile then [] else [DirBlock(NewDirEntries(p, n))];
    var d := s.disk + [DirBlock(entries)] + own;
    State(d + [Node(dir')] + [Node(NewNode(isFile, |d| - 1))], s.inodeMap[p := |d|][n := |d| + 1], s.cr)
  }

  lemma CreateIs(s: State, p: nat, dir: Inode, name: string, n: nat, isFile: bool)
    requires Legal(s, p, dir) && IsDir(s.disk, dir) && AddEntry(s.disk, dir, name, n).Some? && n < INODES
    ensures |s.inodeMap| == INODES && |s.cr| == CHUNKS && |dir.pointers| == PTRS
    ensures AddEntry(s.disk, dir, name, n).value.0 < PTRS
    ensures CreateState(s, p, dir, name, n, isFile) ==
      Relog(Logged(s, p, dir, AddEntry(s.disk, dir, name, n).value, n, isFile), [p, n], [])
  {
    hide AddEntry, Relog;
    AddEntryOk(s.disk, dir, name, n);
  }

  ghost predicate LinkedBy(s: State, t: State, src: seq<string>, dst: seq<string>, noForce: bool) {
    && Shaped(s) && src != [] && dst != []
    && var f, w := TargetOf(s, src), WalkPath(s, dst);
    && f.Regular? && w.At? && AddEntry(s.disk, w.dir, w.name, f.n).Some?
    && t == Finished(LinkState(s, w.parent, w.dir, w.name, f.n, f.inode), noForce)
    && (ChunksCurrent(s) ==> (ChunksCurrent(t) <==> Chunk(f.n) == Chunk(w.parent)))
  }

  ghost predicate DeletedBy(s: State, t: State, path: seq<string>, noForce: bool) {
    && Shaped(s) && path != []
    && var f := TargetOf(s, path);
    && f.Regular? && FindSlot(s.disk, f.at.dir, f.at.name, 0).0 != -1
    && t == Finished(DeleteState(s, f.at.parent, f.at.dir, f.at.name, f.n, f.inode), noForce)
  }

  ghost predicate WrittenBy(s: State, t: State, path: seq<string>, offset: nat, contents: seq<string>, noForce: bool) {
    && Shaped(s) && path != [] && offset < PTRS
    && var f := TargetOf(s, path);
    && f.Regular? && |s.inodeMap| == INODES && |s.cr| == CHUNKS && |f.inode.pointers| == PTRS
    && t == Finished(WriteState(s, f.n, f.inode, offset, contents), noForce)
  }

  /** What a successful create did, for the number it was given. */
  ghost predicate CreatedBy(s: State, t: State, w: Walk, isFile: bool, noForce: bool, sequential: bool) {
    exists n: nat :: FreeInode(s, n) && (sequential ==> forall i: nat :: i < n ==> !FreeInode(s, i))
      && n < INODES && w.At? && Legal(s, w.parent, w.dir)
        && IsDir(s.disk, w.dir) && AddEntry(s.disk, w.dir, w.name, n).Some?
      && t == Finished(CreateState(s, w.parent, w.dir, w.name, n, isFile), noForce)
  }

  lemma {:induction false} FirstBlock(disk: Disk, dir: Inode, name: string, from: nat, k: nat)
    requires IsDir(disk, dir) && from <= k < dir.size && FindName(EntriesAt(disk, dir, k), name) != -1
    requires forall j: nat :: from <= j < k ==> FindName(EntriesAt(disk, dir, j), name) == -1
    ensures FindSlot(disk, dir, name, from) == (k, FindName(EntriesAt(disk, dir, k), name))
    decreases k - from
  {
    hide InodeOk, FindName;
    if from < k { FirstBlock(disk, dir, name, from + 1, k); }
  }

  lemma {:induction false} NoBlock(disk: Disk, dir: Inode, name: string, from: nat)
    requires IsDir(disk, dir) && from <= dir.size
    requires forall j: nat :: from <= j < dir.size ==> FindName(EntriesAt(disk, dir, j), name) == -1
    ensures FindSlot(disk, dir, name, from) == (-1, -1)
    decreases dir.size - from
  {
    hide InodeOk, FindName;
    if from < dir.size { NoBlock(disk, dir, name, from + 1); }
  }

  function Initial(): State {
    var none := [-1, -1, -1, -1, -1, -1, -1, -1, -1, -1, -1, -1, -1, -1, -1, -1];
    State([Checkpoint(none[0 := 3]), DirBlock(NewDirEntries(0, 0)),
      Node(Inode(Dir, 1, 2, NoPointers()[0 := 1])), Imap(none[0 := 2])],
      FreshMap(INODES)[0 := 2], none[0 := 3])
  }

  function FreshMap(n: nat): (m: seq<int>)
    ensures |m| == n && forall i :: 0 <= i < n ==> m[i] == -1
  {
    if n == 0 then [] else FreshMap(n - 1) + [-1]
  }

  lemma InitialDisk()
    ensures DiskOk(Initial().disk)
  {
    hide FreshMap;
    var d := Initial().disk;
    assert PointsAtDir(d, 1);
    assert BlockOk(d, d[0]) && BlockOk(d, d[1]) && BlockOk(d, d[2]) && BlockOk(d, d[3]);
  }

  lemma InitialOk()
    ensures Stored(Initial(), false) && ChunksCurrent(Initial())
  {
    hide FreshMap, DiskOk;
    InitialDisk();
    var s := Initial();
    assert ImapChunk(s.inodeMap, 0) == s.disk[3].addresses;
  }

  lemma InitialTidy()
    ensures AllTidy(Initial())
  {
    hide FreshMap;
    var s := Initial();
    var root := s.disk[2].inode;
    assert root == NewNode(false, 1) && s.disk[1] == DirBlock(NewDirEntries(0, 0));
    NewNodeTidy(s.disk, false, 1, 0, 0);
  }

  /** Only the root's own two entries, which name the root. */
  lemma InitialCounted()
    ensures Counted(Initial())
  {
    hide FreshMap, InodeOk, NamesAt;
    InitialOk();
    InitialTidy();
    var s, root := Initial(), NewNode(false, 1);
    assert MemInode(s.disk, s.inodeMap, 0) == Some(root);
    TidyOf(s, 0, root);
    forall d: nat, j: nat, l: nat | d > 0 ensures SlotAt(s, d, j, l).None? { NoSlots(s, d); }
    NewDirNames(s, 0, 1, 0, 1);
    forall m: nat | m < INODES ensures CountRight(s, m) {
      if m > 0 {
        assert MemInode(s.disk, s.inodeMap, m).None?;
        NewDirNames(s, 0, 1, 0, m);
        forall d: nat, j: nat, l: nat ensures !NamesAt(s, d, j, l, m) {
          if d > 0 { NotNamed(s, d, j, l, m); }
        }
        assert Namers(s, m) == {};
      }
    }
  }

  lemma NotNamed(s: State, d: nat, j: nat, l: nat, m: nat)
    requires SlotAt(s, d, j, l).None?
    ensures !NamesAt(s, d, j, l, m)
  {
  }

  // ---------- an instance ----------

  lemma Room(disk: Disk, dir: Inode, name: string, n: int)
    requires IsDir(disk, dir) && dir.size < PTRS
    ensures AddEntry(disk, dir, name, n).Some? && AddEntry(disk, dir, name, n).value.1 <= dir.size + 1
  {
    hide InodeOk, FindSlot;
  }

  /** The root of a fresh file system can take any file. */
  lemma InitialRoot(n: nat)
    requires 1 <= n < INODES
    ensures var s, root := Initial(), NewNode(false, 1);
      && FreeInode(s, n) && ChunksCurrent(s) && AllTidy(s) && Legal(s, 0, root) && IsDir(s.disk, root)
      && Number(s.disk, root, "a") == -1 && Number(s.disk, root, "b") == -1
  {
    hide Shaped, ChunksOk, AllTidy, FreshMap, InodeOk;
    InitialOk();
    InitialTidy();
    var s, root := Initial(), NewNode(false, 1);
    assert MemInode(s.disk, s.inodeMap, 0) == Some(root);
    TidyOf(s, 0, root);
    assert "a"[0] != '.' && "a"[0] != '-' && "b"[0] != '.' && "b"[0] != '-';
    InitialNames("a");
    InitialNames("b");
  }

  /** A file just created can be linked in the same directory, under a name that has no number yet. */
  lemma CreatedThere(s: State, p: nat, dir: Inode, a: string, n: nat, b: string)
    requires Legal(s, p, dir) && IsDir(s.disk, dir) && AddEntry(s.disk, dir, a, n).Some? && n < INODES && n != p
    requires ChunksCurrent(s) && AllTidy(s) && dir.size + 1 < PTRS
    requires Number(s.disk, dir, a) == -1 && Number(s.disk, dir, b) == -1 && a != "-" && b != "-" && a != b
    ensures var t := CreateState(s, p, dir, a, n, true);
      && ChunksCurrent(t) && |t.inodeMap| == INODES
        && MemInode(t.disk, t.inodeMap, p).Some? && MemInode(t.disk, t.inodeMap, n).Some?
      && var dir', file := MemInode(t.disk, t.inodeMap, p).value, MemInode(t.disk, t.inodeMap, n).value;
      && Legal(t, p, dir') && IsDir(t.disk, dir') && Number(t.disk, dir', b) == -1 && AddEntry(t.disk, dir', b, n).Some?
      && file.kind.Reg? && file.refs == 1
  {
    hide Shaped, DiskOk, InodeOk, ChunksOk, FindSlot, AddEntry, CreateState, Number, Rewritten, AllTidy, Tidy;
    var t := CreateState(s, p, dir, a, n, true);
    CreateShaped(s, p, dir, a, n, true);
    ShapedSizes(t);
    CreateFacts(s, p, dir, a, n, true);
    TidyOf(s, p, dir);
    CreateNames(s, p, dir, a, n, true, b);
    Room(s.disk, dir, a, n);
    Room(t.disk, MemInode(t.disk, t.inodeMap, p).value, b, n);
  }

  /** In a fresh file system a file "a" is created in the root, with any free number, and linked to "b": after a
      cr_sync the two ways to it disagree on the reference count unless the number is in the root's imap chunk. */
  lemma LinkAcrossChunks(n: nat)
    requires 1 <= n < INODES
    ensures var s := Initial();
      var root := NewNode(false, 1);
      && FreeInode(s, n) && Legal(s, 0, root) && IsDir(s.disk, root) && AddEntry(s.disk, root, "a", n).Some?
      && var t := CreateState(s, 0, root, "a", n, true);
      && |t.inodeMap| == INODES && MemInode(t.disk, t.inodeMap, 0).Some? && MemInode(t.disk, t.inodeMap, n).Some?
      && var dir, file := MemInode(t.disk, t.inodeMap, 0).value, MemInode(t.disk, t.inodeMap, n).value;
      && Legal(t, 0, dir) && IsDir(t.disk, dir) && Number(t.disk, dir, "b") == -1 && AddEntry(t.disk, dir, "b", n).Some?
      && var u := LinkState(t, 0, dir, "b", n, file);
      && |u.disk| > 0 && |u.inodeMap| == INODES && MemInode(u.disk, u.inodeMap, n) == Some(file.(refs := 2))
      && DiskInode(Sync(u).disk, n) == Some(file.(refs := if n < PER_CHUNK then 2 else 1))
  {
    hide Shaped, DiskOk, InodeOk, FindSlot, AddEntry, CreateState, LinkState, Number, AllTidy, Tidy, Initial, NewNode,
      Legal, IsDir, DiskInode, Sync;
    var s, root := Initial(), NewNode(false, 1);
    InitialRoot(n);
    RootSize();
    Room(s.disk, root, "a", n);
    assert "a"[0] != '-' && "b"[0] != '-' && "a"[0] != 'b';
    CreatedThere(s, 0, root, "a", n, "b");
    var t := CreateState(s, 0, root, "a", n, true);
    var dir, file := MemInode(t.disk, t.inodeMap, 0).value, MemInode(t.disk, t.inodeMap, n).value;
    LinkThenSync(t, 0, dir, "b", n, file);
    LinkShapedOnly(t, 0, dir, "b", n, file);
    ShapedSizes(LinkState(t, 0, dir, "b", n, file));
  }

  /** In a fresh file system a directory /d is created, and then a file /d/f: the walk finds that d does not have an f
      yet, and afterwards d lists f with the new number and the root lists none. */
  lemma NestedCreate(n: nat, m: nat)
    requires 1 <= n < INODES && 1 <= m < INODES && n != m
    ensures var s, root := Initial(), NewNode(false, 1);
      && Shaped(s) && WalkPath(s, ["", "d"]) == At(-1, "d", 0, root) && AddEntry(s.disk, root, "d", n).Some?
      && var t := CreateState(s, 0, root, "d", n, false);
      && Shaped(t) && var w := WalkPath(t, ["", "d", "f"]);
      && w.At? && w.parent == n && w.inum == -1 && FreeInode(t, m) && AddEntry(t.disk, w.dir, "f", m).Some?
      && var u := CreateState(t, n, w.dir, "f", m, true);
      LeadsTo(u, n, "f", m) && LeadsTo(u, 0, "f", -1) && LeadsTo(u, 0, "d", n)
  {
    hide Shaped, AddEntry, CreateState, Number, AllTidy, LeadsTo, SameNames, IsDir, IsDirectory, Initial, NewNode,
      Rewritten;
    var s, root := Initial(), NewNode(false, 1);
    InitialOk();
    InitialRoot(n);
    InitialRoot(m);
    InitialNames("d");
    InitialNames("f");
    RootSize();
    Room(s.disk, root, "d", n);
    LegalIsDirectory(s, 0, root);
    FreeIsNoDirectory(s, n);
    assert "d"[0] != '-' && "f"[0] != '-' && "d"[0] != 'f';
    CreateSameNames(s, 0, root, "d", n, false);
    CreateTidy(s, 0, root, "d", n, false);
    CreateFacts(s, 0, root, "d", n, false);
    var t := CreateState(s, 0, root, "d", n, false);
    var dir := MemInode(t.disk, t.inodeMap, n).value;
    EmptyDirectory(t, n, |s.disk| + 1, 0, "f");
    LastName(s, 0, root, "f", -1);
    assert LeadsTo(t, 0, "f", -1) && LeadsTo(t, 0, "d", n) by { hide *; KeptName(s, t, 0, "d", 0, "f", -1); }
    TwoSteps(t, "d", "f", n, dir);
    Room(t.disk, dir, "f", m);
    FreeIsNoDirectory(t, m);
    CreateSameNames(t, n, dir, "f", m, true);
    var u := CreateState(t, n, dir, "f", m, true);
    KeptName(t, u, n, "f", 0, "f", -1);
    KeptName(t, u, n, "f", 0, "d", n);
  }

  lemma KeptName(s: State, t: State, p: nat, name: string, d: nat, m: string, n: int)
    requires SameNames(s, t, p, name) && LeadsTo(s, d, m, n) && m != "-" && (d != p || m != name)
    ensures LeadsTo(t, d, m, n)
  {
    hide LeadsTo, IsDirectory;
  }

  /** A name that is not made of dots is not in the root of a fresh file system. */
  lemma InitialNames(name: string)
    requires |name| >= 1 && name[0] != '.' && name[0] != '-'
    ensures var s, root := Initial(), NewNode(false, 1);
      && MemInode(s.disk, s.inodeMap, 0) == Some(root) && IsDir(s.disk, root) && Number(s.disk, root, name) == -1
      && Shaped(s) && WalkPath(s, ["", name]) == At(-1, name, 0, root)
  {
    hide Shaped, ChunksOk, AllTidy, FreshMap, InodeOk;
    InitialOk();
    InitialTidy();
    var s, root := Initial(), NewNode(false, 1);
    assert MemInode(s.disk, s.inodeMap, 0) == Some(root);
    TidyOf(s, 0, root);
    var e := NewDirEntries(0, 0);
    assert EntriesAt(s.disk, root, 0) == e;
    FindAbsent(e, name, 0);
    assert ["", name][1..] == [name];
  }

  lemma EmptyDirectory(t: State, n: nat, a: nat, p: nat, name: string)
    requires Shaped(t) && n < INODES && n < |t.inodeMap| && MemInode(t.disk, t.inodeMap, n) == Some(NewNode(false, a))
    requires a < |t.disk| && t.disk[a] == DirBlock(NewDirEntries(p, n))
    requires |name| >= 1 && name[0] != '.' && name[0] != '-'
    ensures var dir := NewNode(false, a);
      Legal(t, n, dir) && IsDir(t.disk, dir) && Number(t.disk, dir, name) == -1 && dir.size < PTRS
  {
    hide DiskOk, BlockOk;
    var dir := NewNode(false, a);
    assert Legal(t, n, dir);
    LegalIsDirectory(t, n, dir);
    var e := NewDirEntries(p, n);
    assert EntriesAt(t.disk, dir, 0) == e;
    FindAbsent(e, name, 0);
  }

  lemma TwoSteps(t: State, a: string, b: string, n: nat, dir: Inode)
    requires Shaped(t) && LeadsTo(t, 0, a, n) && n < INODES && Legal(t, n, dir) && IsDir(t.disk, dir)
    ensures WalkPath(t, ["", a, b]) == At(Number(t.disk, dir, b), b, n, dir)
  {
    hide Shaped, IsDir, Number;
    assert ["", a, b][1..] == [a, b] && [a, b][1..] == [b];
    assert WalkFrom(t, n, [b]) == At(Number(t.disk, dir, b), b, n, dir);
  }

  lemma RootSize()
    ensures NewNode(false, 1).size == 1
  {
  }

  lemma InitialDash()
    ensures IsDir(Initial().disk, NewNode(false, 1)) && Number(Initial().disk, NewNode(false, 1), "-") == -1
  {
    hide FreshMap, InodeOk;
    InitialRoot(1);
    var s, root := Initial(), NewNode(false, 1);
    assert EntriesAt(s.disk, root, 0) == NewDirEntries(0, 0);
    assert "."[0] != "-"[0] && |".."| != |"-"|;
    assert FindName(NewDirEntries(0, 0), "-") == 2;
  }

  /** In a fresh file system a file named "-" is created in the root, and then a file "a": both creates succeed, the
      counts are right after the first and wrong after the second. */
  lemma DashOverwritten(n: nat, m: nat)
    requires 1 <= n < INODES && 1 <= m < INODES && n != m
    ensures var s := Initial();
      var root := NewNode(false, 1);
      && FreeInode(s, n) && Legal(s, 0, root) && IsDir(s.disk, root) && Number(s.disk, root, "-") == -1
      && AddEntry(s.disk, root, "-", n).Some?
      && var t := CreateState(s, 0, root, "-", n, true);
      && |t.inodeMap| == INODES && MemInode(t.disk, t.inodeMap, 0).Some? && FreeInode(t, m) && Conserved(t)
      && var dir := MemInode(t.disk, t.inodeMap, 0).value;
      && Legal(t, 0, dir) && IsDir(t.disk, dir) && Number(t.disk, dir, "a") == -1 && AddEntry(t.disk, dir, "a", m).Some?
      && !Conserved(CreateState(t, 0, dir, "a", m, true))
  {
    hide Shaped, DiskOk, InodeOk, FindSlot, AddEntry, CreateState, Number, AllTidy, Tidy, Initial, Legal, IsDir,
      Conserved, NoDash, Rewritten;
    var s, root := Initial(), NewNode(false, 1);
    InitialRoot(n);
    InitialRoot(m);
    InitialCounted();
    InitialDash();
    RootSize();
    Room(s.disk, root, "-", n);
    assert "a"[0] != '-';
    NoDashFile(s, 0, root);
    AfterDash(s, 0, root, n, "a");
    CreateRefs(s, 0, root, "-", n, true);
    var t := CreateState(s, 0, root, "-", n, true);
    var dir := MemInode(t.disk, t.inodeMap, 0).value;
    Room(t.disk, dir, "a", m);
    CreateRefs(t, 0, dir, "a", m, true);
  }

  /** The directory after a file named "-" has been created in it. */
  lemma AfterDash(s: State, p: nat, dir: Inode, n: nat, b: string)
    requires Legal(s, p, dir) && IsDir(s.disk, dir) && AddEntry(s.disk, dir, "-", n).Some? && n < INODES && n != p
    requires AllTidy(s) && dir.size + 1 < PTRS
    requires Number(s.disk, dir, "-") == -1 && Number(s.disk, dir, b) == -1 && b != "-"
    ensures var t := CreateState(s, p, dir, "-", n, true);
      && |t.inodeMap| == INODES && MemInode(t.disk, t.inodeMap, p).Some?
      && (forall i: nat :: i < INODES && i != p && i != n ==> t.inodeMap[i] == s.inodeMap[i])
      && var dir' := MemInode(t.disk, t.inodeMap, p).value;
      && Legal(t, p, dir') && IsDir(t.disk, dir') && DashFile(t, dir') && dir'.size < PTRS
      && Number(t.disk, dir', b) == -1
  {
    hide Shaped, DiskOk, InodeOk, FindSlot, AddEntry, CreateState, Number, Rewritten, AllTidy, Tidy;
    var t := CreateState(s, p, dir, "-", n, true);
    CreateShaped(s, p, dir, "-", n, true);
    ShapedSizes(t);
    ShapedSizes(s);
    CreateFacts(s, p, dir, "-", n, true);
    CreateNames(s, p, dir, "-", n, true, "-");
    CreateNames(s, p, dir, "-", n, true, b);
    Room(s.disk, dir, "-", n);
  }
}
