/** The very simple file system of file-implementation/vsfs.py and file-journaling/fsck.py: inodes, data blocks,
    bitmaps and directory entries, and the consistency that ties them together. */
module Vsfs {

  datatype FType = Free | File | Dir

  datatype Inode = Inode(ftype: FType, addr: int, refCnt: int)

  type Entries = seq<(string, int)>

  datatype Block = Block(ftype: FType, entries: Entries, contents: string)

  /** Both bitmaps, the inodes and the data blocks. */
  datatype Image = Image(ibits: seq<bool>, inodes: seq<Inode>, dbits: seq<bool>, data: seq<Block>)

  // ---------- counting names ----------

  /** How many entries name inode `i`. */
  function Naming(entries: Entries, i: int): nat {
    if entries == [] then 0
    else Naming(entries[..|entries| - 1], i) + (if entries[|entries| - 1].1 == i then 1 else 0)
  }

  /** Only the entries of directory blocks are live. */
  function InBlock(b: Block, i: int): nat { if b.ftype.Dir? then Naming(b.entries, i) else 0 }

  function Refs(data: seq<Block>, i: int): nat {
    if data == [] then 0 else Refs(data[..|data| - 1], i) + InBlock(data[|data| - 1], i)
  }

  lemma {:induction false} RefsSet(data: seq<Block>, b: nat, block: Block, i: int)
    requires b < |data|
    ensures Refs(data[b := block], i) == Refs(data, i) - InBlock(data[b], i) + InBlock(block, i)
  {
    var n, data' := |data| - 1, data[b := block];
    if b < n {
      RefsSet(data[..n], b, block, i);
      assert data'[..n] == data[..n][b := block];
    } else {
      assert data'[..n] == data[..n];
    }
  }

  lemma NamingAdd(entries: Entries, name: string, j: int, i: int)
    ensures Naming(entries + [(name, j)], i) == Naming(entries, i) + if i == j then 1 else 0
  {
    assert (entries + [(name, j)])[..|entries|] == entries;
  }

  function Without(entries: Entries, k: nat): Entries
    requires k < |entries|
  {
    entries[..k] + entries[k + 1..]
  }

  lemma {:induction false} NamingRemove(entries: Entries, k: nat, i: int)
    requires k < |entries|
    ensures Naming(Without(entries, k), i) == Naming(entries, i) - if entries[k].1 == i then 1 else 0
  {
    var n, e' := |entries| - 1, Without(entries, k);
    if k < n {
      NamingRemove(entries[..n], k, i);
      assert e'[..n - 1] == Without(entries[..n], k) && e'[n - 1] == entries[n];
    } else {
      assert e' == entries[..n];
    }
  }

  lemma {:induction false} NamingSome(entries: Entries, k: nat)
    requires k < |entries|
    ensures Naming(entries, entries[k].1) >= 1
  {
    if k < |entries| - 1 { NamingSome(entries[..|entries| - 1], k); }
  }

  lemma {:induction false} NamingNone(entries: Entries, i: int)
    requires forall k :: 0 <= k < |entries| ==> entries[k].1 != i
    ensures Naming(entries, i) == 0
  {
    if entries != [] { NamingNone(entries[..|entries| - 1], i); }
  }

  lemma {:induction false} RefsBound(data: seq<Block>, b: nat, i: int)
    requires b < |data|
    ensures InBlock(data[b], i) <= Refs(data, i)
  {
    if b < |data| - 1 { RefsBound(data[..|data| - 1], b, i); }
  }

  lemma {:induction false} RefsNone(data: seq<Block>, i: int)
    requires forall b :: 0 <= b < |data| ==> InBlock(data[b], i) == 0
    ensures Refs(data, i) == 0
  {
    if data != [] { RefsNone(data[..|data| - 1], i); }
  }

  // ---------- consistency ----------

  ghost predicate Sized(s: Image) { |s.ibits| == |s.inodes| && |s.dbits| == |s.data| }

  predicate Live(s: Image, i: int) { 0 <= i < |s.ibits| && s.ibits[i] }

  /** The bitmaps mark exactly what is in use. */
  ghost predicate BitsOk(s: Image) {
    && Sized(s)
    && (forall i :: 0 <= i < |s.ibits| ==> (s.ibits[i] <==> !s.inodes[i].ftype.Free?))
    && (forall b :: 0 <= b < |s.dbits| ==> (s.dbits[b] <==> !s.data[b].ftype.Free?))
  }

  /** An inode's block has its type; a directory has one, a free inode has none. */
  ghost predicate AddrOk(s: Image, i: nat)
    requires i < |s.inodes|
  {
    var n := s.inodes[i];
    if n.addr == -1 then !n.ftype.Dir? else !n.ftype.Free? && 0 <= n.addr < |s.data| && s.data[n.addr].ftype == n.ftype
  }

  predicate Owns(s: Image, i: nat, b: nat) { i < |s.inodes| && s.inodes[i].addr == b }

  /** Blocks match their owners: every block in use belongs to one inode, and to one only. */
  ghost predicate BlocksOk(s: Image) {
    && (forall i: nat :: i < |s.inodes| ==> AddrOk(s, i))
    && (forall i: nat, j: nat, b: nat :: Owns(s, i, b) && Owns(s, j, b) ==> i == j)
    && (forall b: nat :: b < |s.data| && !s.data[b].ftype.Free? ==> exists i :: Owns(s, i, b))
  }

  ghost predicate EntriesLive(s: Image, b: nat)
    requires b < |s.data|
  {
    s.data[b].ftype.Dir? ==> forall k :: 0 <= k < |s.data[b].entries| ==> Live(s, s.data[b].entries[k].1)
  }

  /** Reference counts are the numbers of live directory entries, and no entry names a free inode. */
  ghost predicate RefsOk(s: Image) {
    && |s.ibits| == |s.inodes|
    && (forall i: nat :: i < |s.inodes| && s.ibits[i] ==> s.inodes[i].refCnt == Refs(s.data, i))
    && (forall b: nat :: b < |s.data| ==> EntriesLive(s, b))
  }

  ghost predicate Consistent(s: Image) { BitsOk(s) && BlocksOk(s) && RefsOk(s) }

  /** A free inode is named nowhere. */
  lemma FreeUnnamed(s: Image, i: nat)
    requires RefsOk(s) && i < |s.inodes| && !s.ibits[i]
    ensures Refs(s.data, i) == 0
  {
    forall b | 0 <= b < |s.data| ensures InBlock(s.data[b], i) == 0 {
      assert EntriesLive(s, b);
      NamingNoneLive(s, b, i);
    }
    RefsNone(s.data, i);
  }

  lemma NamingNoneLive(s: Image, b: nat, i: nat)
    requires b < |s.data| && EntriesLive(s, b) && !Live(s, i)
    ensures InBlock(s.data[b], i) == 0
  {
    if s.data[b].ftype.Dir? { NamingNone(s.data[b].entries, i); }
  }

  // ---------- the steps of the operations ----------

  predicate DirBlock(s: Image, b: nat) { b < |s.data| && s.data[b].ftype.Dir? }

  function WithEntries(s: Image, b: nat, entries: Entries): Image
    requires b < |s.data|
  {
    s.(data := s.data[b := s.data[b].(entries := entries)])
  }

  function WithInode(s: Image, i: nat, n: Inode): Image
    requires i < |s.inodes|
  {
    s.(inodes := s.inodes[i := n])
  }

  /** A link: a new entry, and one more reference. */
  function Linked(s: Image, b: nat, name: string, i: nat): Image
    requires b < |s.data| && i < |s.inodes|
  {
    WithInode(WithEntries(s, b, s.data[b].entries + [(name, i)]), i, s.inodes[i].(refCnt := s.inodes[i].refCnt + 1))
  }

  /** An unlink of a file that has other links. */
  function Unlinked(s: Image, b: nat, k: nat, i: nat): Image
    requires b < |s.data| && k < |s.data[b].entries| && i < |s.inodes|
  {
    WithInode(WithEntries(s, b, Without(s.data[b].entries, k)), i, s.inodes[i].(refCnt := s.inodes[i].refCnt - 1))
  }

  function FreeBlock(b: Block): Block {
    b.(ftype := Free, contents := "", entries := if b.ftype.Dir? then [] else b.entries)
  }

  /** The block, if any, and the inode of a file are freed. */
  function Released(s: Image, i: nat): Image
    requires Sized(s) && i < |s.inodes| && s.inodes[i].addr < |s.data|
  {
    var a, n := s.inodes[i].addr, s.inodes[i];
    var t := if a < 0 then s else s.(dbits := s.dbits[a := false], data := s.data[a := FreeBlock(s.data[a])]);
    t.(ibits := t.ibits[i := false], inodes := t.inodes[i := n.(ftype := Free, addr := -1)])
  }

  /** A new file or directory inode; a directory comes with its block and the two standard entries. */
  function NewFile(s: Image, i: nat): Image
    requires Sized(s) && i < |s.inodes|
  {
    s.(ibits := s.ibits[i := true], inodes := s.inodes[i := Inode(File, -1, 1)])
  }

  function NewDir(s: Image, i: nat, b: nat, parent: nat): Image
    requires Sized(s) && i < |s.inodes| && b < |s.data| && parent < |s.inodes| && i != parent
  {
    var p := s.inodes[parent];
    Image(s.ibits[i := true], s.inodes[i := Inode(Dir, b, 2)][parent := p.(refCnt := p.refCnt + 1)],
      s.dbits[b := true], s.data[b := s.data[b].(ftype := Dir, entries := [(".", i), ("..", parent)])])
  }

  function Written(s: Image, i: nat, b: nat, contents: string): Image
    requires Sized(s) && i < |s.inodes| && b < |s.data|
  {
    s.(inodes := s.inodes[i := s.inodes[i].(addr := b)], dbits := s.dbits[b := true],
       data := s.data[b := s.data[b].(ftype := File, contents := contents)])
  }

  // ---------- every step keeps consistency ----------

  lemma LinkedRefs(s: Image, b: nat, name: string, i: nat)
    requires BitsOk(s) && RefsOk(s) && DirBlock(s, b) && Live(s, i)
    ensures RefsOk(Linked(s, b, name, i))
  {
    hide Refs, Naming, BlocksOk;
    var t := Linked(s, b, name, i);
    assert t.data == s.data[b := t.data[b]];
    forall j: nat | j < |t.inodes| && t.ibits[j] ensures t.inodes[j].refCnt == Refs(t.data, j) {
      NamingAdd(s.data[b].entries, name, i, j);
      RefsSet(s.data, b, t.data[b], j);
    }
    forall c: nat | c < |t.data| ensures EntriesLive(t, c) { assert EntriesLive(s, c); }
  }

  /** Giving an inode another reference count, or a directory other entries, leaves bitmaps and owners alone. */
  lemma SameOwners(s: Image, t: Image)
    requires BitsOk(s) && BlocksOk(s) && t.ibits == s.ibits && t.dbits == s.dbits && |t.inodes| == |s.inodes|
    requires |t.data| == |s.data|
    requires forall i :: 0 <= i < |s.inodes| ==>
      t.inodes[i].ftype == s.inodes[i].ftype && t.inodes[i].addr == s.inodes[i].addr
    requires forall b :: 0 <= b < |s.data| ==> t.data[b].ftype == s.data[b].ftype
    ensures BitsOk(t) && BlocksOk(t)
  {
    forall i: nat | i < |t.inodes| ensures AddrOk(t, i) { assert AddrOk(s, i); }
    forall i: nat, j: nat, b: nat | Owns(t, i, b) && Owns(t, j, b)
      ensures i == j { assert Owns(s, i, b) && Owns(s, j, b); }
    forall b: nat | b < |t.data| && !t.data[b].ftype.Free? ensures exists i :: Owns(t, i, b) {
      var i :| Owns(s, i, b);
      assert Owns(t, i, b);
    }
  }

  lemma LinkedConsistent(s: Image, b: nat, name: string, i: nat)
    requires Consistent(s) && DirBlock(s, b) && Live(s, i)
    ensures i < |s.inodes| && Consistent(Linked(s, b, name, i))
  {
    LinkedRefs(s, b, name, i);
    SameOwners(s, Linked(s, b, name, i));
  }

  lemma UnlinkedConsistent(s: Image, b: nat, k: nat, i: nat)
    requires Consistent(s) && DirBlock(s, b) && k < |s.data[b].entries| && s.data[b].entries[k].1 == i
    ensures i < |s.inodes| && Consistent(Unlinked(s, b, k, i))
  {
    assert EntriesLive(s, b);
    var t := Unlinked(s, b, k, i);
    forall j: nat | j < |t.inodes| && t.ibits[j] ensures t.inodes[j].refCnt == Refs(t.data, j) {
      NamingRemove(s.data[b].entries, k, j);
      RefsSet(s.data, b, t.data[b], j);
    }
    forall c: nat | c < |t.data| ensures EntriesLive(t, c) { assert EntriesLive(s, c); }
    SameOwners(s, t);
  }

  /** Freeing a file that nothing names any more. */
  lemma ReleasedConsistent(s: Image, i: nat)
    requires Consistent(s) && Live(s, i) && s.inodes[i].ftype.File? && Refs(s.data, i) == 0
    ensures s.inodes[i].addr < |s.data| && Consistent(Released(s, i))
  {
    assert AddrOk(s, i);
    var a, t := s.inodes[i].addr, Released(s, i);
    forall j: nat | j < |t.inodes| ensures AddrOk(t, j) {
      assert AddrOk(s, j);
      if j != i && a >= 0 { assert Owns(s, i, a) && (s.inodes[j].addr == a ==> Owns(s, j, a)); }
    }
    forall j: nat, l: nat, b: nat | Owns(t, j, b) && Owns(t, l, b)
      ensures j == l { assert Owns(s, j, b) && Owns(s, l, b); }
    forall b: nat | b < |t.data| && !t.data[b].ftype.Free? ensures exists j :: Owns(t, j, b) {
      var j :| Owns(s, j, b);
      assert Owns(t, j, b);
    }
    ReleasedRefs(s, i);
  }

  lemma ReleasedRefs(s: Image, i: nat)
    requires BitsOk(s) && RefsOk(s) && Live(s, i) && s.inodes[i].ftype.File? && Refs(s.data, i) == 0 && AddrOk(s, i)
    ensures s.inodes[i].addr < |s.data| && RefsOk(Released(s, i))
  {
    var a, t := s.inodes[i].addr, Released(s, i);
    forall j: nat | j < |t.inodes| ensures Refs(t.data, j) == Refs(s.data, j) {
      if a >= 0 { RefsSet(s.data, a, FreeBlock(s.data[a]), j); }
    }
    forall c: nat | c < |t.data| ensures EntriesLive(t, c) {
      assert EntriesLive(s, c);
      if t.data[c].ftype.Dir? { NotNamed(s, c, i); }
    }
  }

  lemma NotNamed(s: Image, b: nat, i: nat)
    requires DirBlock(s, b) && Refs(s.data, i) == 0
    ensures forall k :: 0 <= k < |s.data[b].entries| ==> s.data[b].entries[k].1 != i
  {
    RefsBound(s.data, b, i);
    forall k | 0 <= k < |s.data[b].entries| ensures s.data[b].entries[k].1 != i { NamingSome(s.data[b].entries, k); }
  }

  /** Creating a file: the inode and its entry in one step. */
  lemma NewFileConsistent(s: Image, i: nat, b: nat, name: string)
    requires Consistent(s) && i < |s.inodes| && !s.ibits[i] && DirBlock(s, b)
    ensures Consistent(WithEntries(NewFile(s, i), b, s.data[b].entries + [(name, i)]))
  {
    var t := WithEntries(NewFile(s, i), b, s.data[b].entries + [(name, i)]);
    forall j: nat | j < |t.inodes| ensures AddrOk(t, j) { assert AddrOk(s, j); }
    forall j: nat, l: nat, c: nat | Owns(t, j, c) && Owns(t, l, c)
      ensures j == l { assert Owns(s, j, c) && Owns(s, l, c); }
    assert AddrOk(s, i);
    forall c: nat | c < |t.data| && !t.data[c].ftype.Free? ensures exists j :: Owns(t, j, c) {
      var j :| Owns(s, j, c);
      assert Owns(t, j, c);
    }
    FreeUnnamed(s, i);
    forall j: nat | j < |t.inodes| && t.ibits[j] ensures t.inodes[j].refCnt == Refs(t.data, j) {
      NamingAdd(s.data[b].entries, name, i, j);
      RefsSet(s.data, b, t.data[b], j);
    }
    forall c: nat | c < |t.data| ensures EntriesLive(t, c) { assert EntriesLive(s, c); }
  }

  /** Creating a directory: inode, block with its own two entries, the parent's reference and its entry. */
  lemma NewDirConsistent(s: Image, i: nat, d: nat, parent: nat, b: nat, name: string)
    requires Consistent(s) && i < |s.inodes| && !s.ibits[i] && d < |s.data| && !s.dbits[d] && Live(s, parent)
    requires DirBlock(s, b)
    ensures d != b && Consistent(WithEntries(NewDir(s, i, d, parent), b, s.data[b].entries + [(name, i)]))
  {
    var u := NewDir(s, i, d, parent);
    var t := WithEntries(u, b, s.data[b].entries + [(name, i)]);
    NewDirOwners(s, i, d, parent);
    NewDirRefs(s, i, d, parent, b, name);
    SameOwners(u, t);
  }

  lemma NewDirOwners(s: Image, i: nat, d: nat, parent: nat)
    requires BitsOk(s) && BlocksOk(s) && i < |s.inodes| && !s.ibits[i] && d < |s.data| && !s.dbits[d] && Live(s, parent)
    ensures var t := NewDir(s, i, d, parent); BitsOk(t) && BlocksOk(t)
  {
    var t := NewDir(s, i, d, parent);
    forall j: nat | j < |t.inodes| ensures AddrOk(t, j) { assert AddrOk(s, j); }
    assert AddrOk(s, i);
    forall j: nat, l: nat, c: nat | Owns(t, j, c) && Owns(t, l, c) ensures j == l {
      assert AddrOk(s, j) && AddrOk(s, l) && (j != i ==> Owns(s, j, c)) && (l != i ==> Owns(s, l, c));
    }
    forall c: nat | c < |t.data| && !t.data[c].ftype.Free? ensures exists j :: Owns(t, j, c) {
      if c == d {
        assert Owns(t, i, d);
      } else {
        var j :| Owns(s, j, c);
        assert Owns(t, j, c);
      }
    }
  }

  lemma NewDirRefs(s: Image, i: nat, d: nat, parent: nat, b: nat, name: string)
    requires BitsOk(s) && RefsOk(s) && i < |s.inodes| && !s.ibits[i] && d < |s.data| && !s.dbits[d]
    requires Live(s, parent) && DirBlock(s, b)
    ensures RefsOk(WithEntries(NewDir(s, i, d, parent), b, s.data[b].entries + [(name, i)]))
  {
    var u := NewDir(s, i, d, parent);
    var t := WithEntries(u, b, s.data[b].entries + [(name, i)]);
    FreeUnnamed(s, i);
    forall j: nat | j < |t.inodes| && t.ibits[j] ensures t.inodes[j].refCnt == Refs(t.data, j) {
      OwnEntries(i, parent, j);
      RefsSet(s.data, d, u.data[d], j);
      NamingAdd(s.data[b].entries, name, i, j);
      RefsSet(u.data, b, t.data[b], j);
    }
    forall c: nat | c < |t.data| ensures EntriesLive(t, c) { assert EntriesLive(s, c); }
  }

  lemma OwnEntries(i: int, parent: int, j: int)
    ensures Naming([(".", i), ("..", parent)], j) == (if j == i then 1 else 0) + (if j == parent then 1 else 0)
  {
    hide Naming;
    NamingNone([], j);
    NamingAdd([], ".", i, j);
    assert [] + [(".", i)] == [(".", i)];
    NamingAdd([(".", i)], "..", parent, j);
    assert [(".", i)] + [("..", parent)] == [(".", i), ("..", parent)];
  }

  lemma WrittenConsistent(s: Image, i: nat, b: nat, contents: string)
    requires Consistent(s) && Live(s, i) && s.inodes[i].ftype.File? && s.inodes[i].addr == -1 && b < |s.data|
    requires !s.dbits[b]
    ensures Consistent(Written(s, i, b, contents))
  {
    var t := Written(s, i, b, contents);
    forall j: nat | j < |t.inodes| ensures AddrOk(t, j) { assert AddrOk(s, j); }
    forall j: nat, l: nat, c: nat | Owns(t, j, c) && Owns(t, l, c) ensures j == l {
      assert AddrOk(s, j) && AddrOk(s, l) && (j != i ==> Owns(s, j, c)) && (l != i ==> Owns(s, l, c));
    }
    forall c: nat | c < |t.data| && !t.data[c].ftype.Free? ensures exists j :: Owns(t, j, c) {
      if c == b {
        assert Owns(t, i, b);
      } else {
        var j :| Owns(s, j, c);
        assert Owns(t, j, c);
      }
    }
    forall j: nat | j < |t.inodes| ensures Refs(t.data, j) == Refs(s.data, j) { RefsSet(s.data, b, t.data[b], j); }
    forall c: nat | c < |t.data| ensures EntriesLive(t, c) { assert EntriesLive(s, c); }
  }
}
