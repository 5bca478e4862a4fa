/** What is in the files of file-lfs/lfs.py, seen through the in-memory inode map: which files each operation changes,
    and how. */
module LfsFiles {
  import opened LfsDisk
  import opened LfsNames
  import opened LfsOps
  import opened LfsPaths

  /** A file or directory without the addresses of its blocks. */
  datatype View = View(kind: Kind, size: nat, refs: int, blocks: seq<Option<Block>>)

  ghost function ViewOf(s: State, n: nat): Option<View>
    requires n < |s.inodeMap|
  {
    match MemInode(s.disk, s.inodeMap, n)
    case None => None
    case Some(i) => Some(View(i.kind, i.size, i.refs, Contents(s.disk, i).blocks))
  }

  /** Inodes and blocks that nothing was written over: an inode not remapped is what it was. */
  lemma ViewKept(s: State, t: State, n: nat)
    requires Shaped(s) && Shaped(t) && Extends(s.disk, t.disk) && n < INODES && t.inodeMap[n] == s.inodeMap[n]
    ensures ViewOf(t, n) == ViewOf(s, n)
  {
    hide BlockOk;
    if MemInode(s.disk, s.inodeMap, n).Some? {
      var i := MemInode(s.disk, s.inodeMap, n).value;
      assert s.inodeMap[n] != 0 && MemInode(t.disk, t.inodeMap, n) == Some(i);
      NodeOf(s, n, i);
      BlocksKept(s, t, i);
    }
  }

  lemma BlocksKept(s: State, t: State, i: Inode)
    requires Shaped(s) && Shaped(t) && Extends(s.disk, t.disk) && InodeOk(s.disk, i)
    ensures Contents(t.disk, i).blocks == Contents(s.disk, i).blocks
  {
    hide BlockOk;
    forall k | 0 <= k < |i.pointers| ensures BlockAt(t.disk, i.pointers[k]) == BlockAt(s.disk, i.pointers[k]) {
      if i.kind.Dir? && k < i.size { assert PointsAtDir(s.disk, i.pointers[k]); }
    }
  }

  /** All files but these two are as before. */
  ghost predicate OthersKept(s: State, t: State, p: nat, n: nat) {
    |s.inodeMap| == |t.inodeMap| == INODES
      && forall i: nat :: i < INODES && i != p && i != n ==> ViewOf(t, i) == ViewOf(s, i)
  }

  lemma OthersKeptBy(s: State, t: State, p: nat, n: nat)
    requires Shaped(s) && Shaped(t) && Extends(s.disk, t.disk)
    requires forall i: nat :: i < INODES && i != p && i != n ==> t.inodeMap[i] == s.inodeMap[i]
    ensures OthersKept(s, t, p, n)
  {
    hide Shaped, ViewOf;
    ShapedSizes(s);
    ShapedSizes(t);
    forall i: nat | i < INODES && i != p && i != n ensures ViewOf(t, i) == ViewOf(s, i) { ViewKept(s, t, i); }
  }

  /** A create changes its directory and makes the new inode: an empty file with one reference, or a directory of one
      block with two. */
  lemma CreateViews(s: State, p: nat, dir: Inode, name: string, n: nat, isFile: bool)
    requires Legal(s, p, dir) && IsDir(s.disk, dir) && AddEntry(s.disk, dir, name, n).Some? && n < INODES && n != p
    ensures var t := CreateState(s, p, dir, name, n, isFile);
      OthersKept(s, t, p, n) && ViewOf(t, n) == Some(NewView(isFile, p, n))
  {
    hide Shaped, AddEntry, CreateState, InodeOk, Rewritten;
    var t := CreateState(s, p, dir, name, n, isFile);
    CreateShaped(s, p, dir, name, n, isFile);
    CreateFacts(s, p, dir, name, n, isFile);
    PrefixExtends(s.disk, t.disk);
    OthersKeptBy(s, t, p, n);
    NewNodeView(t.disk, isFile, |s.disk| + if isFile then 0 else 1, p, n);
  }

  ghost function NewView(isFile: bool, p: nat, n: nat): View {
    var none := [None, None, None, None, None, None, None, None];
    if isFile then View(Reg, 0, 1, none) else View(Dir, 1, 2, none[0 := Some(DirBlock(NewDirEntries(p, n)))])
  }

  lemma NewNodeView(disk: Disk, isFile: bool, a: nat, p: nat, n: nat)
    requires !isFile ==> a < |disk| && disk[a] == DirBlock(NewDirEntries(p, n))
    ensures var i := NewNode(isFile, a); View(i.kind, i.size, i.refs, Contents(disk, i).blocks) == NewView(isFile, p, n)
  {
    hide NewDirEntries;
    var i := NewNode(isFile, a);
    assert Contents(disk, i).blocks == NewView(isFile, p, n).blocks;
  }

  /** A link changes its directory, and of the file linked the count. */
  lemma LinkViews(s: State, p: nat, dir: Inode, name: string, n: nat, src: Inode)
    requires Legal(s, p, dir) && IsDir(s.disk, dir) && AddEntry(s.disk, dir, name, n).Some? && n < INODES
    requires MemInode(s.disk, s.inodeMap, n) == Some(src) && src.kind.Reg?
    ensures var t := LinkState(s, p, dir, name, n, src);
      OthersKept(s, t, p, n) && ViewOf(s, n).Some? && ViewOf(t, n) == Some(ViewOf(s, n).value.(refs := src.refs + 1))
  {
    hide Shaped, AddEntry, LinkState, InodeOk, Rewritten;
    var t := LinkState(s, p, dir, name, n, src);
    LinkShapedOnly(s, p, dir, name, n, src);
    LinkFacts(s, p, dir, name, n, src);
    PrefixExtends(s.disk, t.disk);
    OthersKeptBy(s, t, p, n);
    NodeOf(s, n, src);
    BlocksKept(s, t, src);
  }

  /** A delete changes its directory, and of the file the count; with the last reference the file is gone. */
  lemma DeleteViews(s: State, p: nat, dir: Inode, name: string, n: nat, file: Inode)
    requires Legal(s, p, dir) && IsDir(s.disk, dir) && FindSlot(s.disk, dir, name, 0).0 != -1 && n < INODES
    requires MemInode(s.disk, s.inodeMap, n) == Some(file) && file.kind.Reg? && AllTidy(s)
    ensures var t := DeleteState(s, p, dir, name, n, file);
      && OthersKept(s, t, p, n) && ViewOf(s, n).Some?
      && ViewOf(t, n) == if file.refs == 1 then None else Some(ViewOf(s, n).value.(refs := file.refs - 1))
  {
    hide Shaped, DeleteState, InodeOk, Rewritten, AllTidy, FindSlot;
    ShapedSizes(s);
    FileTidy(s, n, file);
    var t := DeleteState(s, p, dir, name, n, file);
    DeleteShaped(s, p, dir, name, n, file);
    DeleteFacts(s, p, dir, name, n, file);
    PrefixExtends(s.disk, t.disk);
    OthersKeptBy(s, t, p, n);
    NodeOf(s, n, file);
    BlocksKept(s, t, file);
  }

  /** The file after a write of the blocks that fit: they replace those at their places, and the file ends behind the
      last of them or where it did, whichever is later. */
  ghost function Overwritten(v: View, offset: nat, contents: seq<string>): View
    requires offset < PTRS && |v.blocks| == PTRS
  {
    var end := if offset + |contents| <= PTRS then offset + |contents| else PTRS;
    v.(size := if end > v.size then end else v.size,
       blocks := seq(PTRS, k requires 0 <= k < PTRS =>
         if offset <= k < end then Some(Data(contents[k - offset])) else v.blocks[k]))
  }

  /** A write changes its file only. */
  lemma WriteViews(s: State, n: nat, file: Inode, offset: nat, contents: seq<string>)
    requires Shaped(s) && n < INODES && MemInode(s.disk, s.inodeMap, n) == Some(file) && file.kind.Reg? && offset < PTRS
    requires |s.inodeMap| == INODES && |s.cr| == CHUNKS && |file.pointers| == PTRS
    ensures var t := WriteState(s, n, file, offset, contents);
      && OthersKept(s, t, n, n) && ViewOf(s, n).Some? && |ViewOf(s, n).value.blocks| == PTRS
      && ViewOf(t, n) == Some(Overwritten(ViewOf(s, n).value, offset, contents))
  {
    hide Shaped, Repointed, LogChunk;
    var w, t := Fits(offset, contents), WriteState(s, n, file, offset, contents);
    WriteShaped(s, n, file, offset, contents);
    PrefixExtends(s.disk, t.disk);
    Remapped(s, n, file, offset, contents);
    OthersKeptBy(s, t, n, n);
    var f := MemInode(t.disk, t.inodeMap, n).value;
    forall k: nat | k < PTRS
      ensures |f.pointers| == PTRS
      ensures BlockAt(t.disk, f.pointers[k]) == Overwritten(ViewOf(s, n).value, offset, contents).blocks[k]
    {
      WriteThenRead(s, n, file, offset, contents, k);
    }
    assert Contents(t.disk, f).blocks == Overwritten(ViewOf(s, n).value, offset, contents).blocks;
  }

  lemma Remapped(s: State, n: nat, file: Inode, offset: nat, contents: seq<string>)
    requires |s.inodeMap| == INODES && |s.cr| == CHUNKS && n < INODES && |file.pointers| == PTRS && offset < PTRS
    ensures var t, w := WriteState(s, n, file, offset, contents), Fits(offset, contents);
      && |t.inodeMap| == INODES && (forall i: nat :: i < INODES && i != n ==> t.inodeMap[i] == s.inodeMap[i])
      && MemInode(t.disk, t.inodeMap, n) == Some(Written(file, offset, w, |s.disk|))
  {
    hide Repointed;
    var t, w := WriteState(s, n, file, offset, contents), Fits(offset, contents);
    assert t.inodeMap[n] == |s.disk| + w && t.disk[|s.disk| + w] == Node(Written(file, offset, w, |s.disk|));
  }

  /** Writing the checkpoint changes no file. */
  lemma SyncViews(s: State)
    requires Shaped(s)
    ensures |s.disk| > 0 && OthersKept(s, Sync(s), INODES, INODES)
  {
    hide DiskOk, ViewOf;
    SyncOk(s.disk, s.cr);
    SyncParts(s);
    OthersKeptBy(s, Sync(s), INODES, INODES);
  }
}
