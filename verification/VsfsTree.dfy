/** The file system of vsfs.py as its user sees it: what each path holds, and that directories list themselves and their
    parents. */
module VsfsTree {
  import opened Vsfs
  import opened VsfsNames
  import opened VsfsFs

  datatype Text = Empty | Text(contents: string)

  /** What the file at a path holds. */
  ghost function Holds(w: World, f: Path): Text
    requires f in w.inum && w.inum[f] < |w.image.inodes|
  {
    TextOf(w.image, w.inum[f])
  }

  ghost function TextOf(s: Image, i: nat): Text
    requires i < |s.inodes|
  {
    if 0 <= s.inodes[i].addr < |s.data| then Text(s.data[s.inodes[i].addr].contents) else Empty
  }

  /** The file is there, and holds what it held. */
  ghost predicate SameFile(w: World, t: World, f: Path) {
    f in w.inum && w.inum[f] < |w.image.inodes| && f in t.inum && t.inum[f] < |t.image.inodes|
      && Holds(t, f) == Holds(w, f)
  }

  ghost predicate NowHolds(t: World, f: Path, text: Text) {
    f in t.files && f in t.inum && t.inum[f] < |t.image.inodes| && Holds(t, f) == text
  }

  /** Every directory lists itself as "." and its parent, the root itself, as "..". */
  ghost predicate DotsOk(w: World) { forall d :: d in w.dirs ==> DotsAt(w, d) }

  ghost predicate DotsAt(w: World, d: Path) {
    && IsDirPath(w, d) && Has(EntriesOf(w, d), ".", w.inum[d])
    && var up := if d == [] then d else Parent(d);
    up in w.dirs && up in w.inum && Has(EntriesOf(w, d), "..", w.inum[up])
  }

  /** So does the root of a fresh file system. */
  lemma RootDots(w: World)
    requires w.dirs == {[]} && w.inum == map[[] := 0] && |w.image.inodes| >= 1 && |w.image.data| >= 1
    requires w.image.inodes[0] == Inode(Dir, 0, 2) && w.image.data[0] == Block(Dir, [(".", 0), ("..", 0)], "")
    ensures DotsOk(w)
  {
    var e := EntriesOf(w, []);
    assert e[0] == (".", 0) && e[1] == ("..", 0);
  }

  // ---------- create and link ----------

  lemma CreateImageTexts(w: World, parent: Path, name: string, isDir: bool, i: nat, d: nat, j: nat)
    requires Sound(w) && parent in w.dirs && IsDirPath(w, parent) && i < |w.image.inodes| && !w.image.ibits[i]
    requires isDir ==> d < |w.image.data| && !w.image.dbits[d] && i != w.inum[parent]
    requires j < |w.image.inodes|
    ensures Sized(w.image)
    ensures var t := CreatedImage(w, parent, name, isDir, i, d);
      && |t.inodes| == |w.image.inodes| && |t.data| == |w.image.data|
      && (w.image.inodes[j].ftype.File? ==> TextOf(t, j) == TextOf(w.image, j))
      && (!isDir && j == i ==> TextOf(t, j) == Empty)
      && (isDir && j == i ==>
            && 0 <= t.inodes[i].addr < |t.data| && t.inodes[i].ftype.Dir?
            && t.data[t.inodes[i].addr].entries == [(".", i as int), ("..", w.inum[parent] as int)])
  {
    hide PathsOk, RefsOk;
    var s := w.image;
    assert AddrOk(s, j) && AddrOk(s, w.inum[parent]);
    DirPathLive(w, parent);
  }

  /** A create makes an empty file, or a directory with its two entries, and leaves what every file holds. */
  lemma CreateTexts(w: World, t: World, parent: Path, name: string, isDir: bool, i: nat, d: nat)
    requires Sound(w) && parent in w.dirs && IsDirPath(w, parent) && Enterable(w, parent, name)
    requires CreatedWith(w, t, parent, name, isDir, i, d)
    ensures forall f :: f in w.files ==> f in t.files && SameFile(w, t, f)
    ensures !isDir ==> NowHolds(t, parent + [name], Empty)
    ensures DotsOk(w) ==> DotsOk(t)
  {
    hide Consistent, PathsOk, HasName, CreatedImage, DotsAt;
    NewPath(w, parent, name);
    forall f | f in w.files ensures f in t.files && SameFile(w, t, f) {
      Removable(w, f);
      CreateImageTexts(w, parent, name, isDir, i, d, w.inum[f]);
    }
    CreateImageTexts(w, parent, name, isDir, i, d, i);
    if DotsOk(w) {
      GrownBy(w, parent, name, isDir, i, d);
      forall e | e in t.dirs ensures DotsAt(t, e) {
        if e in w.dirs {
          KeepsDots(w, t.image, parent, name, i, isDir, e);
        } else {
          NewDots(w, t, parent, name, i);
        }
      }
    }
  }

  lemma GrownBy(w: World, parent: Path, name: string, isDir: bool, i: nat, d: nat)
    requires Sound(w) && parent in w.dirs && IsDirPath(w, parent) && Enterable(w, parent, name)
    requires i < |w.image.inodes| && !w.image.ibits[i]
    requires Sized(w.image) && (isDir ==> d < |w.image.data| && !w.image.dbits[d] && i != w.inum[parent])
    ensures Grown(w, CreatedImage(w, parent, name, isDir, i, d), parent, name, i)
  {
    hide PathsOk, BlocksOk, RefsOk, HasName;
    DirPathLive(w, parent);
    var b, t := BlockOf(w, parent), CreatedImage(w, parent, name, isDir, i, d);
    if isDir {
      NewDirConsistent(w.image, i, d, w.inum[parent], b, name);
    } else {
      NewFileConsistent(w.image, i, b, name);
    }
    forall e | e in w.dirs && IsDirPath(w, e)
      ensures t.data[BlockOf(w, e)].entries == EntriesOf(w, e) + if e == parent then [(name, i as int)] else []
    {
      DirPathLive(w, e);
      if e != parent && BlockOf(w, e) == b { OwnBlocks(w, e, parent); }
      assert EntriesOf(w, e) + [] == EntriesOf(w, e);
    }
  }

  lemma KeepsDots(w: World, t: Image, parent: Path, name: string, i: nat, isDir: bool, e: Path)
    requires Good(w) && parent in w.dirs && IsDirPath(w, parent) && Enterable(w, parent, name)
    requires Grown(w, t, parent, name, i) && e in w.dirs && DotsAt(w, e)
    ensures DotsAt(Added(w, t, parent + [name], i, isDir), e)
  {
    hide Consistent, PathsOk, HasName, Has, UniqueNames, Grown;
    NewPath(w, parent, name);
    AddedKeepsDir(w, t, parent, name, i, isDir, e);
  }

  lemma NewDots(w: World, t: World, parent: Path, name: string, i: nat)
    requires parent in w.dirs && IsDirPath(w, parent) && parent in t.dirs && parent in t.inum
    requires t.inum == w.inum[parent + [name] := i] && parent + [name] != parent
    requires i < |t.image.inodes| && t.image.inodes[i].ftype.Dir? && 0 <= t.image.inodes[i].addr < |t.image.data|
    requires t.image.data[t.image.inodes[i].addr].entries == [(".", i as int), ("..", w.inum[parent] as int)]
    ensures DotsAt(t, parent + [name])
  {
    var p := parent + [name];
    assert Parent(p) == parent;
    var e := EntriesOf(t, p);
    assert e[0] == (".", i as int) && e[1] == ("..", w.inum[parent] as int);
  }

  /** After a link the new path holds what the old one does, and every file what it held. */
  lemma LinkTexts(w: World, target: Path, parent: Path, name: string)
    requires Sound(w) && target in w.files && parent in w.dirs && IsDirPath(w, parent) && Enterable(w, parent, name)
    ensures target in w.inum && w.inum[target] < |w.image.inodes|
    ensures var t :=
        Added(w, Linked(w.image, BlockOf(w, parent), name, w.inum[target]), parent + [name], w.inum[target], false);
      && (forall f :: f in w.files ==> f in t.files && SameFile(w, t, f))
      && NowHolds(t, parent + [name], Holds(w, target))
      && (DotsOk(w) ==> DotsOk(t))
  {
    hide Consistent, PathsOk, HasName, DotsAt;
    Removable(w, target);
    NewPath(w, parent, name);
    var i := w.inum[target];
    var s := Linked(w.image, BlockOf(w, parent), name, i);
    forall j: nat | j < |s.inodes| ensures TextOf(s, j) == TextOf(w.image, j) {}
    forall f | f in w.files ensures f in w.inum && w.inum[f] < |w.image.inodes| { Removable(w, f); }
    if DotsOk(w) {
      LinkGrown(w, parent, name, i);
      forall e | e in w.dirs ensures DotsAt(Added(w, s, parent + [name], i, false), e) {
        KeepsDots(w, s, parent, name, i, false, e);
      }
    }
  }

  lemma LinkGrown(w: World, parent: Path, name: string, i: nat)
    requires Sound(w) && parent in w.dirs && IsDirPath(w, parent) && Enterable(w, parent, name) && Live(w.image, i)
    requires i < |w.image.inodes|
    ensures Grown(w, Linked(w.image, BlockOf(w, parent), name, i), parent, name, i)
  {
    hide PathsOk, BlocksOk, RefsOk, HasName;
    DirPathLive(w, parent);
    var b := BlockOf(w, parent);
    var t := Linked(w.image, b, name, i);
    LinkedConsistent(w.image, b, name, i);
    forall e | e in w.dirs && IsDirPath(w, e)
      ensures t.data[BlockOf(w, e)].entries == EntriesOf(w, e) + if e == parent then [(name, i as int)] else []
    {
      if e != parent && BlockOf(w, e) == b { OwnBlocks(w, e, parent); }
      assert EntriesOf(w, e) + [] == EntriesOf(w, e);
    }
  }

  // ---------- delete ----------

  /** A delete leaves what every other path holds, also one that is a link to the same file. */
  lemma RemoveTexts(w: World, f: Path)
    requires Sound(w) && f in w.files
    ensures f != [] && f in w.inum && IsDirPath(w, Parent(f)) && HasName(EntriesOf(w, Parent(f)), Last(f))
    ensures Sized(w.image) && w.inum[f] < |w.image.inodes| && w.image.inodes[w.inum[f]].addr < |w.image.data|
    ensures forall g :: g in w.files && g != f ==> g in Removed(w, f).files && SameFile(w, Removed(w, f), g)
    ensures f !in Removed(w, f).files
    ensures DotsOk(w) ==> DotsOk(Removed(w, f))
  {
    hide Consistent, PathsOk, HasName, DotsAt, Deleted, FirstNamed, Blank;
    Removable(w, f);
    RemovedGood(w, f);
    var t := Removed(w, f);
    forall g | g in w.files && g != f ensures g in t.files && SameFile(w, t, g) {
      Removable(w, g);
      Removable(t, g);
      RemovedType(w, f, w.inum[g]);
      var b := BlockOf(w, Parent(f));
      DeletedTexts(w.image, b, FirstNamed(EntriesOf(w, Parent(f)), Last(f)), w.inum[f], w.inum[g]);
    }
    if DotsOk(w) {
      forall d | d in w.dirs ensures DotsAt(t, d) { RemovedDots(w, f, d); }
    }
  }

  lemma DeletedTexts(s: Image, b: nat, k: nat, i: nat, j: nat)
    requires Consistent(s) && DirBlock(s, b) && k < |s.data[b].entries| && i < |s.inodes| && j < |s.inodes|
    requires Sized(s) && s.inodes[i].addr < |s.data| && s.inodes[j].ftype.File?
    requires |Deleted(s, b, k, i).inodes| == |s.inodes| && Deleted(s, b, k, i).inodes[j].ftype.File?
    ensures TextOf(Deleted(s, b, k, i), j) == TextOf(s, j)
  {
    hide RefsOk;
    assert AddrOk(s, i) && AddrOk(s, j);
    var a := s.inodes[i].addr;
    if a >= 0 && j != i { assert Owns(s, i, a) && (s.inodes[j].addr == a ==> Owns(s, j, a)); }
  }

  /** The entry deleted is a file's, so it is not one of the two. */
  lemma RemovedDots(w: World, f: Path, d: Path)
    requires Good(w) && f in w.files && d in w.dirs && DotsAt(w, d)
    requires f != [] && IsDirPath(w, Parent(f)) && HasName(EntriesOf(w, Parent(f)), Last(f)) && f in w.inum
    requires Sized(w.image) && w.inum[f] < |w.image.inodes| && w.image.inodes[w.inum[f]].addr < |w.image.data|
    ensures DotsAt(Removed(w, f), d)
  {
    hide Consistent, HasName, Has, UniqueNames, Deleted;
    RemovedDir(w, f, d);
    Removable(w, f);
    var up := if d == [] then d else Parent(d);
    if d == Parent(f) {
      OneNumber(EntriesOf(w, d), Last(f), w.inum[f], w.inum[d]);
      OneNumber(EntriesOf(w, d), Last(f), w.inum[f], w.inum[up]);
      assert IsDirPath(w, up) by { assert DirsOk(w); }
      assert FileOk(w, f);
      HasIt(EntriesOf(w, d), FirstNamed(EntriesOf(w, d), Last(f)), Last(f), w.inum[f]);
    }
  }

  lemma HasIt(entries: Entries, k: nat, name: string, i: nat)
    requires k < |entries| && entries[k] == (name, i as int)
    ensures Has(entries, name, i)
  {
  }

  lemma OneNumber(entries: Entries, name: string, i: nat, j: nat)
    requires UniqueNames(entries)
    ensures Has(entries, name, i) && Has(entries, name, j) ==> i == j
  {
  }

  // ---------- write ----------

  /** After a write the file holds the contents, under each of its paths, and every other file what it held. */
  lemma WriteTexts(w: World, t: World, f: Path, b: nat, contents: string)
    requires Sound(w) && f in w.files && f in w.inum && w.inum[f] < |w.image.inodes|
    requires w.image.inodes[w.inum[f]].addr == -1 && WrittenWith(w, t, w.inum[f], b, contents)
    ensures forall g :: g in w.files ==>
      && g in t.files && g in w.inum && w.inum[g] < |w.image.inodes|
      && if w.inum[g] == w.inum[f] then NowHolds(t, g, Text(contents)) else SameFile(w, t, g)
    ensures DotsOk(w) ==> DotsOk(t)
  {
    hide Consistent, PathsOk, HasName, DotsAt, Written;
    forall g | g in w.files
      ensures g in t.files && g in w.inum && w.inum[g] < |w.image.inodes|
        && (if w.inum[g] == w.inum[f] then NowHolds(t, g, Text(contents)) else SameFile(w, t, g))
    {
      Removable(w, g);
      WrittenTexts(w.image, w.inum[f], b, contents, w.inum[g]);
    }
    if DotsOk(w) {
      Removable(w, f);
      assert Sized(w.image);
      forall d | d in w.dirs ensures DotsAt(t, d) {
        DirPathLive(w, d);
        WrittenDots(w, t, w.inum[f], b, contents, d);
      }
    }
  }

  lemma WrittenTexts(s: Image, i: nat, b: nat, contents: string, j: nat)
    requires Consistent(s) && Sized(s) && i < |s.inodes| && j < |s.inodes| && b < |s.data| && !s.dbits[b]
    requires s.inodes[j].ftype.File?
    ensures |Written(s, i, b, contents).inodes| == |s.inodes|
    ensures TextOf(Written(s, i, b, contents), j) == if j == i then Text(contents) else TextOf(s, j)
  {
    hide RefsOk;
    assert AddrOk(s, j);
  }

  lemma WrittenDots(w: World, t: World, i: nat, b: nat, contents: string, d: Path)
    requires Good(w) && d in w.dirs && DotsAt(w, d) && i < |w.image.inodes| && w.image.inodes[i].ftype.File?
    requires Live(w.image, w.inum[d]) && DirBlock(w.image, BlockOf(w, d)) && WrittenWith(w, t, i, b, contents)
    ensures DotsAt(t, d)
  {
    hide PathsOk, RefsOk, Has;
    assert EntriesOf(t, d) == EntriesOf(w, d);
  }
}
