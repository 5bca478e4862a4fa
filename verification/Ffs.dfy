/** class file_system of file-ffs/ffs.py: block allocation round the groups, group choice, create and verify. */
module Ffs {
  import opened Arithmetic
  import opened FfsBitmap
  import opened FfsWalk
  import opened FfsWindows

  datatype Kind = Regular | Directory

  /** The ways do_create can end: its three results, the abort in set_name_to_inode, and an exception in choosing
      a group or in allocating blocks. */
  datatype Outcome = Success | Failed | KeyError | Aborted | Raised

  // ---------- paths ----------

  /** rfind of '/'. */
  function LastSlash(path: string): (i: int)
    ensures -1 <= i < |path| || (path == "" && i == -1)
  {
    if path == "" then -1
    else if path[|path| - 1] == '/' then |path| - 1
    else LastSlash(path[..|path| - 1])
  }

  /** A slice with Python's reading of a last index of -1. */
  function ParentOf(path: string): string {
    var i := LastSlash(path);
    if i == 0 then "/" else if i > 0 then path[..i] else if path == "" then "" else path[..|path| - 1]
  }

  function NameOf(path: string): string { path[LastSlash(path) + 1..] }

  lemma {:induction false} LastSlashIs(path: string)
    ensures -1 <= LastSlash(path) < |path| && (LastSlash(path) >= 0 ==> path[LastSlash(path)] == '/')
    ensures forall j :: LastSlash(path) < j < |path| ==> path[j] != '/'
  {
    if path != "" { LastSlashIs(path[..|path| - 1]); }
  }

  /** A name entered in a directory: the path is taken apart again. */
  lemma ParentAndName(dir: string, name: string)
    requires '/' !in name
    ensures NameOf(dir + "/" + name) == name && ParentOf(dir + "/" + name) == if dir == "" then "/" else dir
  {
    var path := dir + "/" + name;
    assert path[|dir|] == '/' && path[|dir| + 1..] == name && path[..|dir|] == dir;
    LastSlashIs(path);
    assert forall j :: |dir| < j < |path| ==> path[j] == name[j - |dir| - 1];
  }

  type Listing = seq<(string, int)>

  ghost predicate Lists(dir: Listing, name: string) { exists i :: 0 <= i < |dir| && dir[i].0 == name }

  /** In the single-block phase: the groups passed since the last allocation are full, and so is the part of
      the current group behind the index. */
  ghost predicate AfterLap(b: Bitmap, start: nat, passed: nat, current: nat, index: nat) {
    && start < |b| && passed < |b| && current == Wrap(start + passed, |b|)
    && (forall m: nat :: m < passed ==> FullAfter(b, start, m))
    && index <= |b[current]| && (forall i :: 0 <= i < index ==> b[current][i].Used?)
  }

  lemma LapStart(b: Bitmap, current: nat)
    requires current < |b|
    ensures AfterLap(b, current, 0, current, 0)
  {
  }

  /** Passing one cell: taken if it was free, so the part behind the index stays full. */
  lemma Visit(was: Bitmap, b: Bitmap, start: nat, passed: nat, current: nat, index: nat, inode: int,
      free: bool) returns (start': nat, passed': nat)
    requires AfterLap(was, start, passed, current, index) && index < |was[current]|
    requires if free then was[current][index].Free? && b == Set(was, current, index, Used(inode))
      else b == was && was[current][index].Used?
    ensures AfterLap(b, start', passed', current, index + 1)
    ensures if free then passed' == 0 && start' == current else passed' == passed && start' == start
  {
    if free { start', passed' := current, 0; } else { start', passed' := start, passed; }
  }

  /** Moving on: after an allocation in this visit the count starts again; otherwise the group behind is full,
      and since there is a free block somewhere, the lap is not over. */
  lemma NextGroup(b: Bitmap, start: nat, passed: nat, current: nat, index: nat,
      free: bool) returns (start': nat, passed': nat)
    requires AfterLap(b, start, passed, current, index) && FreeTotal(b) > 0
    requires !free ==> index == |b[current]|
    ensures AfterLap(b, start', passed', Wrap(current + 1, |b|), 0)
    ensures if free then passed' == 0 else passed' == passed + 1 && start' == start
  {
    if free {
      start', passed' := Wrap(current + 1, |b|), 0;
    } else {
      start', passed' := start, passed + 1;
      assert FullAfter(b, start, passed);
      if passed' == |b| { LapIsFull(b, start); assert false; }
    }
  }

  lemma NothingMarked(b: Bitmap, inode: int)
    ensures Marked(b, b, [], inode)
  {
  }

  lemma SomeBlocks(b: Bitmap, groups: nat, perGroup: nat)
    requires Shape(b, groups, perGroup) && FreeTotal(b) > 0
    ensures perGroup >= 1 && groups >= 1
  {
    if perGroup == 0 { NoneFree(b); }
  }

  // ---------- what the file system keeps ----------

  predicate InodeUsed(b: Bitmap, perGroup: nat, n: int) {
    perGroup >= 1 && n >= 0 && n / perGroup < |b|
      && n % perGroup < |b[n / perGroup]| && b[n / perGroup][n % perGroup] == Used(n)
  }

  predicate BlockOf(b: Bitmap, perGroup: nat, block: int, n: int) {
    perGroup >= 1 && block >= 0 && block / perGroup < |b| && block % perGroup < |b[block / perGroup]|
    && b[block / perGroup][block % perGroup] == Used(n)
  }

  /** Every inode with blocks is marked with its own number, and so is every one of its blocks. */
  ghost predicate FilesOk(inodes: Bitmap, data: Bitmap, perI: nat, perD: nat, blocks: map<int, seq<int>>) {
    forall n :: n in blocks ==> InodeUsed(inodes, perI, n) && forall b :: b in blocks[n] ==> BlockOf(data, perD, b, n)
  }

  /** Names lead to inodes, and every name but the root's is listed in its parent's directory. */
  ghost predicate NamesOk(names: map<string, int>, dirs: map<int, Listing>, blocks: map<int, seq<int>>) {
    && "/" in names
    && (forall path :: path in names ==> names[path] in blocks)
    && (forall d :: d in dirs ==> d in blocks)
    && (forall path :: path in names && path != "/" ==> Listed(names, dirs, path))
  }

  ghost predicate Listed(names: map<string, int>, dirs: map<int, Listing>, path: string) {
    ParentOf(path) in names && names[ParentOf(path)] in dirs && Lists(dirs[names[ParentOf(path)]], NameOf(path))
  }

  /** Block numbers in the whole disk. */
  function Globals(cells: seq<Block>, perGroup: nat): seq<int> {
    if cells == [] then []
    else Globals(cells[..|cells| - 1], perGroup) + [cells[|cells| - 1].1 + cells[|cells| - 1].0 * perGroup]
  }

  lemma {:induction false} GlobalsOwned(before: Bitmap, b: Bitmap, cells: seq<Block>, perGroup: nat,
      all: seq<Block>, n: int)
    requires Marked(before, b, all, n) && Shape(b, |b|, perGroup)
      && perGroup >= 1 && (forall c :: c in cells ==> c in all)
    ensures |Globals(cells, perGroup)| == |cells|
    ensures forall x :: x in Globals(cells, perGroup) ==> BlockOf(b, perGroup, x, n)
  {
    if cells != [] {
      var c := cells[|cells| - 1];
      GlobalsOwned(before, b, cells[..|cells| - 1], perGroup, all, n);
      assert c in all;
      MulNonNegative(c.0, perGroup);
      DivModOf(c.1 + c.0 * perGroup, perGroup, c.0, c.1);
    }
  }

  /** Blocks and inodes in use are not among those an allocation takes. */
  lemma OthersKept(before: Bitmap, after: Bitmap, cells: seq<Block>, n: int, perGroup: nat, block: int, m: int)
    requires Marked(before, after, cells, n) && BlockOf(before, perGroup, block, m)
    ensures BlockOf(after, perGroup, block, m)
  {
    assert (block / perGroup, block % perGroup) !in cells;
  }

  /** A new inode with its blocks joins. */
  lemma FileAdded(inodes: Bitmap, inodes': Bitmap, data: Bitmap, data': Bitmap, perI: nat, perD: nat,
      blocks: map<int, seq<int>>,
      group: nat, index: nat, cells: seq<Block>)
    requires FilesOk(inodes, data, perI, perD, blocks) && perI >= 1 && perD >= 1
    requires Shape(inodes, |inodes|, perI) && Shape(data, |data|, perD)
    requires IsFree(inodes, (group, index)) && inodes' == Set(inodes, group, index, Used(index + group * perI))
    requires Marked(data, data', cells, index + group * perI) && Shape(data', |data'|, perD)
    ensures var n := index + group * perI;
      n !in blocks && FilesOk(inodes', data', perI, perD, blocks[n := Globals(cells, perD)])
  {
    hide Marked, Shape, InodeUsed, BlockOf, Set, Globals, IsFree;
    var n := index + group * perI;
    NewInode(inodes, perI, group, index);
    GlobalsOwned(data, data', cells, perD, cells, n);
    forall m | m in blocks
      ensures InodeUsed(inodes', perI, m) && forall b :: b in blocks[m] ==> BlockOf(data', perD, b, m)
    {
      OldInode(inodes, perI, group, index, m);
      forall b | b in blocks[m] ensures BlockOf(data', perD, b, m) {
        OthersKept(data, data', cells, n, perD, b, m);
      }
    }
  }

  lemma NewInode(inodes: Bitmap, perI: nat, group: nat, index: nat)
    requires perI >= 1 && Shape(inodes, |inodes|, perI) && IsFree(inodes, (group, index))
    ensures var n := index + group * perI;
      InodeUsed(Set(inodes, group, index, Used(n)), perI, n) && !InodeUsed(inodes, perI, n)
  {
    MulNonNegative(group, perI);
    DivModOf(index + group * perI, perI, group, index);
  }

  lemma OldInode(inodes: Bitmap, perI: nat, group: nat, index: nat, m: int)
    requires IsFree(inodes, (group, index)) && InodeUsed(inodes, perI, m)
    ensures InodeUsed(Set(inodes, group, index, Used(index + group * perI)), perI, m)
  {
  }

  /** A new name joins, listed in its parent's directory. */
  lemma NameAdded(names: map<string, int>, dirs: map<int, Listing>, blocks: map<int, seq<int>>, path: string,
      n: int, dirs': map<int, Listing>, mine: seq<int>)
    requires NamesOk(names, dirs, blocks) && path !in names && n !in blocks
    requires ParentOf(path) in names && names[ParentOf(path)] in dirs
    requires var p := names[ParentOf(path)];
      forall d :: d in dirs ==> d in dirs' && dirs'[d] == if d == p then dirs[d] + [(NameOf(path), n)] else dirs[d]
    requires forall d :: d in dirs' ==> d in dirs || d == n
    ensures NamesOk(names[path := n], dirs', blocks[n := mine])
  {
    hide ParentOf, NameOf, LastSlash;
    var names', p := names[path := n], names[ParentOf(path)];
    assert dirs'[p][|dirs[p]|].0 == NameOf(path);
    assert ParentOf(path) != path;
    forall other | other in names' && other != "/" ensures Listed(names', dirs', other) {
      if other != path {
        assert Listed(names, dirs, other);
        var q := names[ParentOf(other)];
        var i :| 0 <= i < |dirs[q]| && dirs[q][i].0 == NameOf(other);
        assert dirs'[q][i].0 == NameOf(other);
      }
    }
  }

  class FileSystem {
    const numGroups: nat
    const blocksPerGroup: nat
    const inodesPerGroup: nat
    const largeFileException: int
    const spreadInodes: bool
    const contigAllocationPolicy: nat
    const spreadDataBlocks: bool
    const allocateFaraway: int

    var dataBitmap: Bitmap
    var inodeBitmap: Bitmap
    var totalDataFree: int
    var totalInodesFree: int
    var dirData: map<int, Listing>
    var inodeType: map<int, Kind>
    var inodeBlocks: map<int, seq<int>>
    var nameToInode: map<string, int>

    /** range_free: are the next min(needed, chunksFree) blocks all in the group and free? */
    method RangeFree(group: nat, index: nat, needed: int, chunksFree: nat) returns (r: bool)
      requires Shape(dataBitmap, numGroups, blocksPerGroup) && group < numGroups
      ensures r <==> var n := if needed < chunksFree then needed else chunksFree;
        index + n <= blocksPerGroup && forall i :: index <= i < index + n ==> dataBitmap[group][i].Free?
    {
      var chunks := if needed < chunksFree then needed else chunksFree;
      if index + chunks - 1 >= blocksPerGroup { return false; }
      var i := index;
      while i < index + chunks
        invariant index <= i && (i == index || i <= index + chunks)
        invariant forall j :: index <= j < i ==> dataBitmap[group][j].Free?
      {
        if dataBitmap[group][i] != Free { return false; }
        i := i + 1;
      }
      return true;
    }

    /** allocate_blocks ends, whatever the bitmap, the contiguity policy and the large-file limit, with exactly
        `size` distinct blocks that were free and now hold the inode number; nothing else changes. */
    method AllocateBlocks(targetGroup: nat, size: nat, inodeNumber: int) returns (taken: seq<Block>)
      requires Shape(dataBitmap, numGroups, blocksPerGroup) && targetGroup < numGroups && contigAllocationPolicy >= 1
      requires 1 <= size <= FreeTotal(dataBitmap)
      modifies this`dataBitmap
      ensures |taken| == size && Marked(old(dataBitmap), dataBitmap, taken, inodeNumber)
      ensures FreeTotal(dataBitmap) == FreeTotal(old(dataBitmap)) - size
      ensures Takes(old(dataBitmap), taken, targetGroup, size, contigAllocationPolicy, largeFileException)
      ensures contigAllocationPolicy == 1 && largeFileException <= 0 ==> FirstFit(old(dataBitmap), taken, targetGroup)
    {
      hide FreeTotal, FreeInRow, Marked, AfterLap, FirstFit, Walked, Wrap, Up, FullAfter;
      taken := [];
      var index: nat, allocatedInGroup, currentGroup: nat, chunksFree: nat := 0, 0, targetGroup, contigAllocationPolicy;
      // The first lap uses the policy; visit `v` to a group begins with starts[v] blocks taken. After the lap single
      // blocks will do, and the groups `start`, `start` + 1, ... passed since the last allocation are full.
      ghost var before, wrapped := dataBitmap, false;
      ghost var starts: seq<nat>, start: nat, passed: nat := [0], 0, 0;
      WalkStarts(before, targetGroup, size, contigAllocationPolicy, largeFileException);
      VisitIsLap(0, targetGroup, numGroups);
      assert Marked(before, dataBitmap, [], inodeNumber) by { NothingMarked(before, inodeNumber); }
      SomeBlocks(dataBitmap, numGroups, blocksPerGroup);
      while true
        invariant Shape(dataBitmap, numGroups, blocksPerGroup) && Marked(before, dataBitmap, taken, inodeNumber)
        invariant FreeTotal(dataBitmap) == FreeTotal(before) - |taken| && |taken| < size
        invariant starts != [] && allocatedInGroup == |taken| - starts[|starts| - 1] >= 0
        invariant currentGroup == (targetGroup + |starts| - 1) % numGroups && index < blocksPerGroup
        invariant largeFileException > 0 ==> allocatedInGroup < largeFileException
        invariant wrapped <==> |starts| > numGroups
        invariant chunksFree == if wrapped then 1 else contigAllocationPolicy
        invariant Walked(before, taken, starts, targetGroup, size, contigAllocationPolicy, largeFileException, index)
        invariant wrapped ==> AfterLap(dataBitmap, start, passed, currentGroup, index)
        decreases if wrapped then 0 else 1, if wrapped then size - |taken| else 0,
          if wrapped then numGroups - passed else numGroups - |starts|, blocksPerGroup - index
      {
        var free := RangeFree(currentGroup, index, size - |taken|, chunksFree);
        ghost var was := dataBitmap;
        WalkStep(before, dataBitmap, taken, inodeNumber, starts, targetGroup, size, contigAllocationPolicy,
          largeFileException, index, Min(chunksFree, size - |taken|), free);
        if free {
          assert dataBitmap[currentGroup][index] == Free;
          SetInTotal(dataBitmap, currentGroup, index, inodeNumber);
          MarkOne(before, dataBitmap, taken, inodeNumber, currentGroup, index);
          dataBitmap := Set(dataBitmap, currentGroup, index, Used(inodeNumber));
          allocatedInGroup := allocatedInGroup + 1;
          taken := taken + [(currentGroup, index)];
        }
        if wrapped { start, passed := Visit(was, dataBitmap, start, passed, currentGroup, index, inodeNumber, free); }
        index := index + 1;
        if |taken| == size {
          if contigAllocationPolicy == 1 && largeFileException <= 0 {
            SinglesAreFirstFit(before, dataBitmap, taken, inodeNumber, starts, targetGroup, size, largeFileException,
              index);
          }
          break;
        }
        if index == blocksPerGroup || (largeFileException > 0 && allocatedInGroup == largeFileException) {
          if wrapped { start, passed := NextGroup(dataBitmap, start, passed, currentGroup, index, free); }
          WalkMoves(before, taken, starts, targetGroup, size, contigAllocationPolicy, largeFileException, index);
          NextVisit(targetGroup, |starts|, numGroups);
          starts := starts + [|taken|];
          allocatedInGroup := 0;
          index := 0;
          currentGroup := Up(currentGroup, numGroups);
          if currentGroup == targetGroup {
            chunksFree := 1;
            if !wrapped { wrapped, start, passed := true, currentGroup, 0; LapStart(dataBitmap, currentGroup); }
          }
        }
      }
    }

    /** allocate_blocks for a size of 0 or less: every range is empty and so counts as free, no count of blocks
        ends the loop, and the assertion that the block is free fails at the first used one met. */
    method AllocateNothing(targetGroup: nat, size: int, inodeNumber: int) returns (taken: seq<Block>, failedAt: Block)
      requires Shape(dataBitmap, numGroups, blocksPerGroup) && targetGroup < numGroups && contigAllocationPolicy >= 1
      requires size <= 0 && blocksPerGroup >= 1
      modifies this`dataBitmap
      ensures Marked(old(dataBitmap), dataBitmap, taken, inodeNumber)
      ensures InBitmap(dataBitmap, failedAt) && dataBitmap[failedAt.0][failedAt.1].Used?
    {
      hide FreeTotal, FreeInRow, Marked, Up;
      taken := [];
      var index: nat, allocatedInGroup, currentGroup: nat, chunksFree: nat := 0, 0, targetGroup, contigAllocationPolicy;
      ghost var before := dataBitmap;
      assert Marked(before, dataBitmap, [], inodeNumber) by { NothingMarked(before, inodeNumber); }
      while true
        invariant Shape(dataBitmap, numGroups, blocksPerGroup) && Marked(before, dataBitmap, taken, inodeNumber)
        invariant currentGroup < numGroups && index < blocksPerGroup
        decreases FreeTotal(dataBitmap)
      {
        var free := RangeFree(currentGroup, index, size - |taken|, chunksFree);
        assert free;
        if dataBitmap[currentGroup][index] != Free { return taken, (currentGroup, index); }
        SetInTotal(dataBitmap, currentGroup, index, inodeNumber);
        MarkOne(before, dataBitmap, taken, inodeNumber, currentGroup, index);
        dataBitmap := Set(dataBitmap, currentGroup, index, Used(inodeNumber));
        allocatedInGroup := allocatedInGroup + 1;
        taken := taken + [(currentGroup, index)];
        index := index + 1;
        assert |taken| != size;
        if index == blocksPerGroup || (largeFileException > 0 && allocatedInGroup == largeFileException) {
          NextUp(currentGroup, numGroups);
          allocatedInGroup := 0;
          index := 0;
          currentGroup := Up(currentGroup, numGroups);
          if currentGroup == targetGroup { chunksFree := 1; }
        }
      }
    }

    // ---------- choosing a group ----------

    method GetFreeCount(row: Row) returns (cnt: nat)
      ensures cnt == FreeInRow(row)
    {
      cnt := 0;
      for i := 0 to |row|
        invariant cnt == FreeInRow(row[..i])
      {
        RowStep(row, i);
        if row[i] == Free { cnt := cnt + 1; }
      }
      assert row[..|row|] == row;
    }

    method FindFreeInodesInRange(group: nat, howMany: nat) returns (sumFree: nat)
      requires Shape(inodeBitmap, numGroups, inodesPerGroup) && numGroups >= 1
      ensures sumFree == FreeInWindow(inodeBitmap, group, howMany)
    {
      sumFree := 0;
      for g := group to group + howMany
        invariant sumFree == FreeInWindow(inodeBitmap, group, g - group)
      {
        var n := GetFreeCount(inodeBitmap[g % numGroups]);
        sumFree := sumFree + n;
      }
    }

    /** find_most_free_inodes_multiple from group 0: of the windows of `howMany` groups, the first with most free
        inodes. Its assertion that one is found cannot fail while an inode is free. */
    method FindMostFreeInodesMultiple(howMany: nat) returns (targetGroup: int)
      requires Shape(inodeBitmap, numGroups, inodesPerGroup) && FreeTotal(inodeBitmap) > 0 && howMany >= 1
      ensures targetGroup == BestWindow(inodeBitmap, howMany)
    {
      hide FreeInWindow, FreeTotal, FreeInRow, Windows;
      SomeBlocks(inodeBitmap, numGroups, inodesPerGroup);
      var freeInodesMax: nat := 0;
      targetGroup := -1;
      var g := 0;
      ghost var k: nat := 0;
      while g < numGroups
        invariant g == k * howMany && numGroups >= 1
        invariant k == 0 ==> freeInodesMax == 0 && targetGroup == -1
        invariant k >= 1 ==> (k - 1) * howMany < numGroups
        invariant k >= 1 ==> freeInodesMax == InWindow(inodeBitmap, howMany, FirstBest(inodeBitmap, howMany, k))
        invariant k >= 1 ==>
          targetGroup == if freeInodesMax > 0 then FirstBest(inodeBitmap, howMany, k) * howMany else -1
        decreases numGroups - g
      {
        var sumFree := FindFreeInodesInRange(g, howMany);
        assert sumFree == InWindow(inodeBitmap, howMany, k);
        if sumFree > freeInodesMax {
          freeInodesMax := sumFree;
          targetGroup := g;
        }
        assert (k + 1) * howMany == k * howMany + howMany;
        g := g + howMany;
        k := k + 1;
      }
      WindowsAre(numGroups, howMany, k);
      WindowsCover(inodeBitmap, howMany);
    }

    /** find_free_inodes_near: the nearest other group with a free inode, of two as near the one above; 1 is returned
        only when no other group has one. */
    method FindFreeInodesNear(targetGroup: nat) returns (r: nat)
      requires Shape(inodeBitmap, numGroups, inodesPerGroup) && targetGroup < numGroups
      ensures Nearest(inodeBitmap, targetGroup, r)
        || (r == 1 && forall g :: 0 <= g < numGroups && g != targetGroup ==> FreeInRow(inodeBitmap[g]) == 0)
    {
      hide FreeInRow, Around, EmptyAt, Wrap, Up, Down, NearestAt;
      ghost var up: nat, down: nat := 0, 0;
      AroundNone(inodeBitmap, targetGroup);
      NextUp(targetGroup, numGroups);
      NextDown(targetGroup + numGroups, numGroups);
      var grower, shrinker := Up(targetGroup, numGroups), Down(targetGroup, numGroups);
      for i := 0 to numGroups - 1
        invariant up + down == i && (if i % 2 == 0 then up == down else up == down + 1)
        invariant grower == Wrap(targetGroup + 1 + up, numGroups)
        invariant shrinker == Wrap(targetGroup + numGroups - 1 - down, numGroups)
        invariant Around(inodeBitmap, targetGroup, up, down)
      {
        var currentGroup;
        if i % 2 == 0 {
          currentGroup := grower;
          NextUp(targetGroup + 1 + up, numGroups);
          grower := Up(grower, numGroups);
          up := up + 1;
        } else {
          currentGroup := shrinker;
          NextDown(targetGroup + numGroups - 1 - down, numGroups);
          shrinker := Down(shrinker, numGroups);
          down := down + 1;
        }
        var free := GetFreeCount(inodeBitmap[currentGroup]);
        if free > 0 {
          FoundNearest(inodeBitmap, targetGroup, up, down, i % 2 == 0);
          return currentGroup;
        }
        AroundStep(inodeBitmap, targetGroup, up, down, i % 2 == 0);
      }
      AllAround(inodeBitmap, targetGroup, up, down);
      return 1;
    }

    /** pick_group: a regular file, when inodes are not spread, goes to its parent's group if that has a free inode
        and else to the nearest that has one; all else goes to the start of the best window. */
    method PickGroup(parent: string, kind: Kind) returns (group: nat)
      requires Shape(inodeBitmap, numGroups, inodesPerGroup) && FreeTotal(inodeBitmap) > 0
      requires kind.Directory? || spreadInodes ==> allocateFaraway >= 1
      requires parent in nameToInode && InodeUsed(inodeBitmap, inodesPerGroup, nameToInode[parent])
      ensures group < numGroups
      ensures kind.Regular? && !spreadInodes ==> FreeInRow(inodeBitmap[group]) > 0
      ensures kind.Regular? && !spreadInodes ==> WithParent(inodeBitmap, inodesPerGroup, nameToInode[parent], group)
      ensures kind.Directory? || spreadInodes ==> group == BestWindow(inodeBitmap, allocateFaraway)
    {
      hide FreeTotal, FreeInRow, BestWindow, Nearest;
      if kind.Regular? && !spreadInodes {
        group := nameToInode[parent] / inodesPerGroup;
        var numFreeInodes := GetFreeCount(inodeBitmap[group]);
        if numFreeInodes == 0 {
          ghost var target := group;
          group := FindFreeInodesNear(group);
          OneIsFree(inodeBitmap, target);
          NearestHasFree(inodeBitmap, target, group);
        }
      } else {
        group := FindMostFreeInodesMultiple(allocateFaraway);
      }
    }

    /** find_free_inode: the first free cell, -1 when there is none. */
    method FindFreeInode(group: nat) returns (inodeNumber: int)
      requires Shape(inodeBitmap, numGroups, inodesPerGroup) && group < numGroups
      ensures inodeNumber == -1 <==> FreeInRow(inodeBitmap[group]) == 0
      ensures inodeNumber != -1 ==> 0 <= inodeNumber < inodesPerGroup && inodeBitmap[group][inodeNumber].Free?
      ensures forall i :: 0 <= i < inodeNumber ==> inodeBitmap[group][i].Used?
    {
      FullRow(inodeBitmap[group]);
      for i := 0 to inodesPerGroup
        invariant forall j :: 0 <= j < i ==> inodeBitmap[group][j].Used?
      {
        if inodeBitmap[group][i] == Free { return i; }
      }
      return -1;
    }

    /** find_min_data_usage: the first group with most free blocks, -1 when no block is free. */
    method FindMinDataUsage() returns (minGroup: int)
      requires Shape(dataBitmap, numGroups, blocksPerGroup)
      ensures minGroup == -1 <==> FreeTotal(dataBitmap) == 0
      ensures minGroup != -1 ==> minGroup >= 0 && MostFree(dataBitmap, minGroup)
    {
      minGroup := -1;
      var minUsage: nat := 0;
      for g := 0 to numGroups
        invariant minGroup == -1 ==> minUsage == 0
        invariant minGroup != -1 ==> 0 <= minGroup < g && minUsage == FreeInRow(dataBitmap[minGroup]) && minUsage > 0
        invariant forall h :: 0 <= h < g ==> FreeInRow(dataBitmap[h]) <= minUsage
        invariant forall h :: 0 <= h < minGroup ==> FreeInRow(dataBitmap[h]) < minUsage
      {
        var dataFree := GetFreeCount(dataBitmap[g]);
        if dataFree > minUsage {
          minUsage := dataFree;
          minGroup := g;
        }
      }
      if minGroup == -1 { NoneFree(dataBitmap); } else { RowTotal(dataBitmap, minGroup); }
    }

    // ---------- creating ----------

    /** Everything a create may change. */
    function Now(): State
      reads this
    {
      State(dataBitmap, inodeBitmap, totalDataFree, totalInodesFree, dirData, inodeType, inodeBlocks, nameToInode)
    }

    function DataPolicy(): Policy { Policy(spreadDataBlocks, contigAllocationPolicy, largeFileException) }

    function Sizes(): Geometry { Geometry(numGroups, blocksPerGroup, inodesPerGroup) }

    ghost predicate Valid()
      reads this
    {
      contigAllocationPolicy >= 1 && Good(Sizes(), Now())
    }

    constructor (numGroups: nat, blocksPerGroup: nat, inodesPerGroup: nat, largeFileException: int, spreadInodes: bool,
        contigAllocationPolicy: nat, spreadDataBlocks: bool, allocateFaraway: int)
      requires numGroups >= 1 && blocksPerGroup >= 1 && inodesPerGroup >= 1 && contigAllocationPolicy >= 1
      ensures Valid() && nameToInode == map["/" := 0] && dirData == map[0 := [(".", 0), ("..", 0)]]
      ensures totalDataFree == blocksPerGroup * numGroups - 1 && totalInodesFree == inodesPerGroup * numGroups - 1
      ensures Sizes() == Geometry(numGroups, blocksPerGroup, inodesPerGroup)
      ensures inodeBlocks == map[0 := [0]]
      ensures forall g, i :: 0 <= g < |inodeBitmap| && 0 <= i < |inodeBitmap[g]| ==>
        inodeBitmap[g][i] == if g == i == 0 then Used(0) else Free
      ensures this.allocateFaraway == allocateFaraway && this.spreadInodes == spreadInodes
      ensures this.spreadDataBlocks == spreadDataBlocks
    {
      this.numGroups := numGroups;
      this.blocksPerGroup := blocksPerGroup;
      this.inodesPerGroup := inodesPerGroup;
      this.largeFileException := largeFileException;
      this.spreadInodes := spreadInodes;
      this.contigAllocationPolicy := contigAllocationPolicy;
      this.spreadDataBlocks := spreadDataBlocks;
      this.allocateFaraway := allocateFaraway;
      var data := seq(numGroups, _ => seq(blocksPerGroup, _ => Free));
      var inodes := seq(numGroups, _ => seq(inodesPerGroup, _ => Free));
      inodeBitmap := Set(inodes, 0, 0, Used(0));
      dataBitmap := Set(data, 0, 0, Used(0));
      totalDataFree := blocksPerGroup * numGroups - 1;
      totalInodesFree := inodesPerGroup * numGroups - 1;
      dirData := map[0 := [(".", 0), ("..", 0)]];
      inodeType := map[0 := Directory];
      inodeBlocks := map[0 := [0]];
      nameToInode := map["/" := 0];
      RootOk(data, inodes, blocksPerGroup, inodesPerGroup);
    }

    method NameTaken(dir: Listing, filename: string) returns (r: bool)
      ensures r <==> Lists(dir, filename)
    {
      for i := 0 to |dir|
        invariant forall j :: 0 <= j < i ==> dir[j].0 != filename
      {
        if dir[i].0 == filename { return true; }
      }
      return false;
    }

    /** The allocations of do_create: an inode in the group picked, -1 when that has none, and the blocks. */
    method Allocate(parent: string, size: int, kind: Kind)
      returns (raised: bool, group: nat, inodeIndex: int, taken: seq<Block>)
      requires Valid() && totalInodesFree != 0 && size <= totalDataFree && parent in nameToInode
      modifies this`dataBitmap
      ensures raised <==> Raises(kind, size, spreadInodes, allocateFaraway)
      ensures raised && size >= 1 ==> dataBitmap == old(dataBitmap)
      ensures !raised ==> group < numGroups && |taken| == size && Shape(dataBitmap, numGroups, blocksPerGroup)
      ensures !raised ==> Marked(old(dataBitmap), dataBitmap, taken, inodeIndex + group * inodesPerGroup)
      ensures !raised ==> FreeTotal(dataBitmap) == FreeTotal(old(dataBitmap)) - size
      ensures !raised ==> Chosen(inodeBitmap, kind, spreadInodes, allocateFaraway, group, inodeIndex)
      ensures !raised && kind.Regular? && !spreadInodes ==>
        WithParent(inodeBitmap, inodesPerGroup, nameToInode[parent], group)
      ensures !raised ==> DataPlaced(old(dataBitmap), taken, group, size, DataPolicy())
    {
      hide FreeTotal, FreeInRow, Marked, InodeUsed, BestWindow, WithParent, MostFree, Takes;
      assert InodeUsed(inodeBitmap, inodesPerGroup, nameToInode[parent]);
      group, inodeIndex, taken := 0, -1, [];
      if (kind.Directory? || spreadInodes) && allocateFaraway <= 0 {
        raised := true;
        return;
      }
      group := PickGroup(parent, kind);
      inodeIndex := FindFreeInode(group);
      ghost var before := dataBitmap;
      var dest: int := group;
      if spreadDataBlocks { dest := FindMinDataUsage(); }
      if size <= 0 {
        var failedAt;
        taken, failedAt := AllocateNothing(PyIndex(dest, numGroups), size, inodeIndex + group * inodesPerGroup);
        raised := true;
        return;
      }
      taken := AllocateBlocks(dest, size, inodeIndex + group * inodesPerGroup);
      MarkedShape(before, dataBitmap, taken, inodeIndex + group * inodesPerGroup, numGroups, blocksPerGroup);
      raised := false;
    }

    /** The part of do_create that enters the new file everywhere; it stops half way when the path is in use. */
    method Record(path: string, size: nat, kind: Kind, group: nat, inodeIndex: int,
        taken: seq<Block>) returns (ok: bool)
      requires group < |inodeBitmap|
        && 0 <= PyIndex(inodeIndex, |inodeBitmap[group]|) < |inodeBitmap[group]| && |taken| == size
      requires ParentOf(path) in nameToInode && nameToInode[ParentOf(path)] in dirData
      modifies this
      ensures ok == (path !in old(nameToInode))
      ensures ok ==> Now() == Install(Sizes(), old(Now()), old(dataBitmap), path, kind, group, inodeIndex, taken)
    {
      hide ParentOf, NameOf, LastSlash, Set, Globals;
      var parentInode, inodeNumber := nameToInode[ParentOf(path)], inodeIndex + group * inodesPerGroup;
      inodeBitmap := Set(inodeBitmap, group, PyIndex(inodeIndex, |inodeBitmap[group]|), Used(inodeNumber));
      dirData := dirData[parentInode := dirData[parentInode] + [(NameOf(path), inodeNumber)]];
      inodeType := inodeType[inodeNumber := kind];
      inodeBlocks := inodeBlocks[inodeNumber := Globals(taken, blocksPerGroup)];
      if path in nameToInode { return false; }
      nameToInode := nameToInode[path := inodeNumber];
      if kind.Directory? { dirData := dirData[inodeNumber := [(".", 0), ("..", 0)]]; }
      totalInodesFree := totalInodesFree - 1;
      totalDataFree := totalDataFree - size;
      return true;
    }

    /** do_create, with the ending its checks lead to; its abort is reached for the path "/" and no other. Success
        is of two kinds. If the group picked has a free inode, one free inode, `size` free blocks and one directory
        entry are taken, a regular file's inode in its parent's group when that has one, nothing else changes, and
        the books stay right. If not, the last inode of the group is booked twice and do_verify fails from then on. */
    method DoCreate(path: string, size: int, kind: Kind) returns (rc: Outcome)
      requires Valid()
      modifies this
      ensures rc == Checks(old(Now()), path, size, kind, spreadInodes, allocateFaraway)
      ensures rc == Failed || rc == KeyError || (rc == Raised && size >= 1) ==> Now() == old(Now())
      ensures rc == Raised ==> Now() == old(Now()).(data := dataBitmap)
      ensures rc == Success ==> FileMade(Sizes(), old(Now()), Now(), path, size, kind, spreadInodes, allocateFaraway)
      ensures rc == Success && FindsInode(old(inodeBitmap), kind, spreadInodes, allocateFaraway) ==> Valid()
      ensures rc == Success && kind.Directory? ==>
        path in nameToInode && nameToInode[path] in dirData
        && dirData[nameToInode[path]] == [(".", 0), ("..", 0)]
      ensures rc == Success ==> FilePlaced(Sizes(), old(Now()), Now(), path, size,
        FindsInode(old(inodeBitmap), kind, spreadInodes, allocateFaraway), DataPolicy())
    {
      hide Good, FileMade, WithParent, FreeTotal, FreeInRow, Marked, LastSlash, ParentOf, NameOf, Set, Lists, Install,
        BestWindow, DataPlaced, FilePlaced;
      ghost var s := Now();
      var parent, filename := ParentOf(path), NameOf(path);
      CountsAre(Sizes(), s);
      if totalInodesFree == 0 || totalDataFree < size { return Failed; }
      if parent !in nameToInode { return Failed; }
      var parentInode := nameToInode[parent];
      if parentInode !in dirData { return KeyError; }
      var taken_ := NameTaken(dirData[parentInode], filename);
      if taken_ { return Failed; }
      OnlyRootAborts(Sizes(), s, path);
      var raised, group, inodeIndex, taken := Allocate(parent, size, kind);
      if raised { return Raised; }
      ghost var data := dataBitmap;
      var recorded := Record(path, size, kind, group, inodeIndex, taken);
      if !recorded { return Aborted; }
      InstallIgnoresData(Sizes(), s, data, path, kind, group, inodeIndex, taken);
      MakesFile(Sizes(), s, data, path, kind, group, inodeIndex, taken, spreadInodes, allocateFaraway);
      InstallPlaced(Sizes(), s, data, path, kind, group, inodeIndex, taken, size, DataPolicy());
      InstallDirectory(Sizes(), s, data, path, kind, group, inodeIndex, taken);
      return Success;
    }

    // ---------- do_verify ----------

    method CountUsed(b: Bitmap, perGroup: nat) returns (used: nat)
      requires Shape(b, numGroups, perGroup)
      ensures used + FreeTotal(b) == numGroups * perGroup
    {
      used := 0;
      for g := 0 to numGroups
        invariant used + FreeTotal(b[..g]) == g * perGroup
      {
        ghost var before := used;
        for i := 0 to perGroup
          invariant used + FreeInRow(b[g][..i]) == before + i
        {
          RowStep(b[g], i);
          if b[g][i] != Free { used := used + 1; }
        }
        assert b[g][..perGroup] == b[g];
        TotalStep(b, g);
        assert (g + 1) * perGroup == g * perGroup + perGroup;
      }
      assert b[..numGroups] == b;
    }

    /** do_verify; false stands for a failing assertion. It passes exactly when the books are right, so always here. */
    method DoVerify() returns (passed: bool)
      requires Shape(dataBitmap, numGroups, blocksPerGroup) && Shape(inodeBitmap, numGroups, inodesPerGroup)
      requires Readable(Sizes(), Now())
      ensures passed <==> Verifies(Sizes(), Now())
      ensures Valid() ==> passed
    {
      hide NamesOk, FilesOk, FreeTotal;
      if Valid() { GoodVerifies(Sizes(), Now()); }
      var dataUsed := CountUsed(dataBitmap, blocksPerGroup);
      var inodesUsed := CountUsed(inodeBitmap, inodesPerGroup);
      if dataUsed + totalDataFree != numGroups * blocksPerGroup { return false; }
      if inodesUsed + totalInodesFree != numGroups * inodesPerGroup { return false; }
      var names := nameToInode.Keys;
      while names != {}
        invariant names <= nameToInode.Keys
        invariant forall path :: path in nameToInode && path !in names ==> BlocksMarked(Sizes(), Now(), path)
        decreases |names|
      {
        var f :| f in names;
        var inodeNumber := nameToInode[f];
        var blocks := inodeBlocks[inodeNumber];
        for k := 0 to |blocks|
          invariant forall j :: 0 <= j < k ==> BlockOf(dataBitmap, blocksPerGroup, blocks[j], inodeNumber)
        {
          assert blocks[k] in blocks;
          var dataGroup, dataIndex := blocks[k] / blocksPerGroup, blocks[k] % blocksPerGroup;
          if dataBitmap[dataGroup][dataIndex] != Used(inodeNumber) {
            assert !BlocksMarked(Sizes(), Now(), f);
            return false;
          }
        }
        names := names - {f};
      }
      return true;
    }
  }

  // ---------- the whole state ----------

  datatype Geometry = Geometry(groups: nat, perD: nat, perI: nat)

  datatype State = State(data: Bitmap, inodes: Bitmap, dataFree: int, inodesFree: int,
    dirs: map<int, Listing>, types: map<int, Kind>, blocks: map<int, seq<int>>, names: map<string, int>)

  /** Bitmaps and totals agree; inodes and their blocks are marked with the inode's number; names lead to inodes. */
  ghost predicate Good(z: Geometry, s: State) {
    && z.groups >= 1 && z.perD >= 1 && z.perI >= 1
    && Shape(s.data, z.groups, z.perD) && Shape(s.inodes, z.groups, z.perI)
    && s.dataFree == FreeTotal(s.data) && s.inodesFree == FreeTotal(s.inodes)
    && FilesOk(s.inodes, s.data, z.perI, z.perD, s.blocks)
    && NamesOk(s.names, s.dirs, s.blocks)
  }

  /** What do_verify looks up is there. */
  ghost predicate Readable(z: Geometry, s: State) {
    z.perD >= 1 && forall path :: path in s.names ==>
      s.names[path] in s.blocks && forall b :: b in s.blocks[s.names[path]] ==> b >= 0 && b / z.perD < z.groups
  }

  ghost predicate BlocksMarked(z: Geometry, s: State, path: string) {
    path in s.names && s.names[path] in s.blocks
    && forall b :: b in s.blocks[s.names[path]] ==> BlockOf(s.data, z.perD, b, s.names[path])
  }

  /** The totals are what the bitmaps say, and the blocks of every named file are marked with its inode. */
  ghost predicate Verifies(z: Geometry, s: State) {
    && s.dataFree == FreeTotal(s.data) && s.inodesFree == FreeTotal(s.inodes)
    && forall path :: path in s.names ==> BlocksMarked(z, s, path)
  }

  /** The first of the groups with most free blocks. */
  ghost predicate MostFree(b: Bitmap, group: nat) {
    && group < |b| && (forall g :: 0 <= g < |b| ==> FreeInRow(b[g]) <= FreeInRow(b[group]))
    && forall g :: 0 <= g < group ==> FreeInRow(b[g]) < FreeInRow(b[group])
  }

  /** Where the data of a file goes: whether to the emptiest group instead of the inode's, how many blocks in a row
      are asked for, and the large-file limit. */
  datatype Policy = Policy(spread: bool, chunk: nat, limit: int)

  /** The blocks are those of the walk from the inode's group, or from the emptiest one. */
  ghost predicate DataPlaced(b: Bitmap, taken: seq<Block>, group: nat, size: nat, p: Policy) {
    exists target: nat :: (if p.spread then MostFree(b, target) else target == group)
      && Takes(b, taken, target, size, p.chunk, p.limit)
  }

  /** The blocks of the file made are placed by the policy; `found` says whether its group had a free inode. */
  ghost predicate FilePlaced(z: Geometry, s: State, t: State, path: string, size: nat, found: bool, p: Policy) {
    && path in t.names && t.names[path] in t.blocks && z.perI >= 1
    && var n := t.names[path];
    && var group := (if found then n else n + 1) / z.perI;
    && group >= 0
    && exists taken :: t.blocks[n] == Globals(taken, z.perD) && DataPlaced(s.data, taken, group, size, p)
  }

  lemma InstallPlaced(z: Geometry, s: State, data: Bitmap, path: string, kind: Kind, group: nat, index: int,
      taken: seq<Block>, size: nat, p: Policy)
    requires group < |s.inodes| && |s.inodes[group]| == z.perI >= 1 && -1 <= index < z.perI && ParentOf(path) in s.names
    requires s.names[ParentOf(path)] in s.dirs && DataPlaced(s.data, taken, group, size, p)
    ensures FilePlaced(z, s, Install(z, s, data, path, kind, group, index, taken), path, size, index >= 0, p)
  {
    hide DataPlaced, Set, Globals, LastSlash, ParentOf, NameOf, Entered;
    var n := index + group * z.perI;
    if index >= 0 { DivModOf(n, z.perI, group, index); } else { DivModOf(n + 1, z.perI, group, 0); }
  }

  /** Python's reading of an index that may be negative. */
  function PyIndex(i: int, n: nat): int { if i < 0 then i + n else i }

  /** Has the group picked a free inode? */
  ghost predicate FindsInode(inodes: Bitmap, kind: Kind, spread: bool, faraway: int) {
    (kind.Regular? && !spread)
    || (faraway >= 1 && |inodes| >= 1 && FreeInRow(inodes[BestWindow(inodes, faraway)]) > 0)
  }

  /** With windows of one group, with one group, or for a file that is not spread, do_create always finds an inode. */
  lemma FindsInodeIf(z: Geometry, s: State, kind: Kind, spread: bool, faraway: int)
    requires Good(z, s) && s.inodesFree != 0
    requires faraway == 1 || (faraway >= 1 && z.groups == 1) || (kind.Regular? && !spread)
    ensures FindsInode(s.inodes, kind, spread, faraway)
  {
    hide FreeTotal, FreeInRow, BestWindow, FilesOk, NamesOk;
    if faraway >= 1 { PickedHasFree(z.groups, z.perI, faraway); }
  }

  /** The group and the index found in it, -1 when there is none. */
  ghost predicate Chosen(inodes: Bitmap, kind: Kind, spread: bool, faraway: int, group: nat, index: int) {
    && group < |inodes|
    && (if FindsInode(inodes, kind, spread, faraway) then index >= 0 && IsFree(inodes, (group, index))
        else index == -1 && FreeInRow(inodes[group]) == 0)
    && (kind.Directory? || spread ==> faraway >= 1 && group == BestWindow(inodes, faraway))
  }

  /** The group is that of the parent's inode, when that has a free one, and else the nearest to it. */
  ghost predicate WithParent(inodes: Bitmap, perI: nat, parent: int, group: nat) {
    && perI >= 1 && parent >= 0 && parent / perI < |inodes|
    && (if FreeInRow(inodes[parent / perI]) > 0 then group == parent / perI
        else Nearest(inodes, parent / perI, group))
  }

  /** A step of 0 is refused by range, a negative one finds no window; a size of 0 or less ends in an assertion. */
  predicate Raises(kind: Kind, size: int, spread: bool, faraway: int) {
    ((kind.Directory? || spread) && faraway <= 0) || size <= 0
  }

  /** What do_create finds before it enters anything. */
  ghost function Checks(s: State, path: string, size: int, kind: Kind, spread: bool, faraway: int): Outcome {
    var parent := ParentOf(path);
    if s.inodesFree == 0 || s.dataFree < size || parent !in s.names then Failed
    else if s.names[parent] !in s.dirs then KeyError
    else if Lists(s.dirs[s.names[parent]], NameOf(path)) then Failed
    else if Raises(kind, size, spread, faraway) then Raised
    else if path == "/" then Aborted else Success
  }

  /** One new file, with one new inode and `size` blocks that were free, entered in its parent's directory. */
  ghost predicate Created(z: Geometry, s: State, t: State, path: string, size: nat, kind: Kind) {
    && path !in s.names && path in t.names && ParentOf(path) in s.names
      && s.names[ParentOf(path)] in s.dirs && z.perI >= 1
    && var n := t.names[path];
    && t.names == s.names[path := n] && t.types == s.types[n := kind]
    && t.dirs == Entered(s.dirs, s.names[ParentOf(path)], NameOf(path), n, kind)
    && n !in s.blocks && n >= 0 && IsFree(s.inodes, (n / z.perI, n % z.perI))
    && t.inodes == Set(s.inodes, n / z.perI, n % z.perI, Used(n))
    && t.inodesFree == s.inodesFree - 1 && t.dataFree == s.dataFree - size
    && exists taken: seq<Block> ::
         |taken| == size && Marked(s.data, t.data, taken, n) && t.blocks == s.blocks[n := Globals(taken, z.perD)]
  }

  /** The new inode is in the group of the parent's inode, when that group has a free one, and else the nearest. */
  ghost predicate InParentsGroup(perI: nat, s: State, t: State, path: string) {
    && path in t.names && t.names[path] >= 0 && ParentOf(path) in s.names && perI >= 1
    && WithParent(s.inodes, perI, s.names[ParentOf(path)], t.names[path] / perI)
  }

  /** What a successful create leaves. */
  ghost predicate FileMade(z: Geometry, s: State, t: State,
      path: string, size: nat, kind: Kind, spread: bool, faraway: int) {
    && (FindsInode(s.inodes, kind, spread, faraway) ==> Verifies(z, t) && Created(z, s, t, path, size, kind))
    && (!FindsInode(s.inodes, kind, spread, faraway) ==>
          !Verifies(z, t) && faraway >= 1 && |s.inodes| >= 1
          && Overbooked(z, s, t, path, size, kind, BestWindow(s.inodes, faraway)))
    && (kind.Regular? && !spread ==> InParentsGroup(z.perI, s, t, path))
  }

  /** A new file whose inode number is the one before the group's first, with the group's last bit marked for it. */
  ghost predicate Overbooked(z: Geometry, s: State, t: State, path: string, size: nat, kind: Kind, group: nat) {
    && path !in s.names && ParentOf(path) in s.names && s.names[ParentOf(path)] in s.dirs && z.perI >= 1
    && group < |s.inodes| && |s.inodes[group]| == z.perI
    && var n := group * z.perI - 1;
    && t.names == s.names[path := n] && t.types == s.types[n := kind]
    && t.dirs == Entered(s.dirs, s.names[ParentOf(path)], NameOf(path), n, kind)
    && s.inodes[group][z.perI - 1].Used? && t.inodes == Set(s.inodes, group, z.perI - 1, Used(n))
    && t.inodesFree == s.inodesFree - 1 && t.dataFree == s.dataFree - size
    && exists taken: seq<Block> ::
         |taken| == size && Marked(s.data, t.data, taken, n) && t.blocks == s.blocks[n := Globals(taken, z.perD)]
  }

  function Install(z: Geometry, s: State, data: Bitmap, path: string, kind: Kind, group: nat, index: int,
      taken: seq<Block>): State
    requires group < |s.inodes| && 0 <= PyIndex(index, |s.inodes[group]|) < |s.inodes[group]|
      && ParentOf(path) in s.names
    requires s.names[ParentOf(path)] in s.dirs
  {
    var n := index + group * z.perI;
    State(data, Set(s.inodes, group, PyIndex(index, |s.inodes[group]|), Used(n)),
      s.dataFree - |taken|, s.inodesFree - 1,
      Entered(s.dirs, s.names[ParentOf(path)], NameOf(path), n, kind), s.types[n := kind],
      s.blocks[n := Globals(taken, z.perD)], s.names[path := n])
  }

  lemma InstallIgnoresData(z: Geometry, s: State, data: Bitmap, path: string, kind: Kind, group: nat,
      index: int, taken: seq<Block>)
    requires group < |s.inodes| && 0 <= PyIndex(index, |s.inodes[group]|) < |s.inodes[group]|
      && ParentOf(path) in s.names
    requires s.names[ParentOf(path)] in s.dirs
    ensures Install(z, s.(data := data), data, path, kind, group, index, taken) ==
      Install(z, s, data, path, kind, group, index, taken)
  {
  }

  lemma InstallDirectory(z: Geometry, s: State, data: Bitmap, path: string, kind: Kind, group: nat, index: int,
      taken: seq<Block>)
    requires group < |s.inodes| && 0 <= PyIndex(index, |s.inodes[group]|) < |s.inodes[group]|
      && ParentOf(path) in s.names
    requires s.names[ParentOf(path)] in s.dirs
    ensures var t := Install(z, s, data, path, kind, group, index, taken);
      && path in t.names
      && (kind.Directory? ==> t.names[path] in t.dirs && t.dirs[t.names[path]] == [(".", 0), ("..", 0)])
  {
    hide Set, Globals, LastSlash, ParentOf, NameOf;
  }

  /** Installing a new file keeps the state good. */
  lemma InstallGood(z: Geometry, s: State, data: Bitmap, path: string, kind: Kind, group: nat, index: nat,
      taken: seq<Block>)
    requires Good(z, s) && path !in s.names && ParentOf(path) in s.names && s.names[ParentOf(path)] in s.dirs
    requires IsFree(s.inodes, (group, index)) && Marked(s.data, data, taken, index + group * z.perI)
    requires FreeTotal(data) == FreeTotal(s.data) - |taken|
    ensures var t := Install(z, s, data, path, kind, group, index, taken);
      Good(z, t) && Created(z, s, t, path, |taken|, kind)
  {
    hide FreeTotal, Marked, Set, FilesOk, NamesOk, LastSlash, ParentOf, NameOf, Entered, Globals;
    var n, t := index + group * z.perI, Install(z, s, data, path, kind, group, index, taken);
    MarkedShape(s.data, data, taken, n, z.groups, z.perD);
    FileAdded(s.inodes, t.inodes, s.data, data, z.perI, z.perD, s.blocks, group, index, taken);
    InodeMarked(s.inodes, z.groups, z.perI, group, index);
    ListingsKept(s.names, s.dirs, s.blocks, s.names[ParentOf(path)], NameOf(path), n, kind);
    NameAdded(s.names, s.dirs, s.blocks, path, n, t.dirs, Globals(taken, z.perD));
  }

  /** Without a free inode in the group the totals no longer match the bitmap. */
  lemma InstallOverbooks(z: Geometry, s: State, data: Bitmap, path: string, kind: Kind, group: nat, taken: seq<Block>)
    requires Good(z, s) && path !in s.names && ParentOf(path) in s.names && s.names[ParentOf(path)] in s.dirs
    requires group < |s.inodes| && FreeInRow(s.inodes[group]) == 0 && Marked(s.data, data, taken, -1 + group * z.perI)
    ensures var t := Install(z, s, data, path, kind, group, -1, taken);
      !Verifies(z, t) && Overbooked(z, s, t, path, |taken|, kind, group)
  {
    hide FreeTotal, Marked, FilesOk, NamesOk, LastSlash, ParentOf, NameOf, Entered, Globals;
    FullRow(s.inodes[group]);
    KeptInTotal(s.inodes, group, z.perI - 1, -1 + group * z.perI);
  }

  lemma MakesFile(z: Geometry, s: State, data: Bitmap, path: string,
      kind: Kind, group: nat, index: int, taken: seq<Block>,
      spread: bool, faraway: int)
    requires path !in s.names && ParentOf(path) in s.names && s.names[ParentOf(path)] in s.dirs
    requires group < |s.inodes| && |s.inodes[group]| == z.perI >= 1
    requires Chosen(s.inodes, kind, spread, faraway, group, index)
      && Marked(s.data, data, taken, index + group * z.perI)
    requires kind.Regular? && !spread ==> WithParent(s.inodes, z.perI, s.names[ParentOf(path)], group)
    requires Good(z, s) && FreeTotal(data) == FreeTotal(s.data) - |taken|
    ensures var t := Install(z, s, data, path, kind, group, index, taken);
      FileMade(z, s, t, path, |taken|, kind, spread, faraway) && (index >= 0 ==> Good(z, t))
  {
    hide Good, Verifies, Created, Overbooked, InParentsGroup, WithParent, FreeTotal, FreeInRow, Marked, LastSlash,
      ParentOf, NameOf, Set, Install, BestWindow;
    if index >= 0 {
      InstallGood(z, s, data, path, kind, group, index, taken);
      GoodVerifies(z, Install(z, s, data, path, kind, group, index, taken));
      if kind.Regular? && !spread { InstallLocal(z, s, data, path, kind, group, index, taken); }
    } else {
      InstallOverbooks(z, s, data, path, kind, group, taken);
    }
  }

  lemma InstallLocal(z: Geometry, s: State, data: Bitmap, path: string, kind: Kind, group: nat, index: nat,
      taken: seq<Block>)
    requires Good(z, s) && ParentOf(path) in s.names && s.names[ParentOf(path)] in s.dirs
    requires IsFree(s.inodes, (group, index))
    requires WithParent(s.inodes, z.perI, s.names[ParentOf(path)], group)
    ensures InParentsGroup(z.perI, s, Install(z, s, data, path, kind, group, index, taken), path)
  {
    hide FreeTotal, FreeInRow, Set, FilesOk, NamesOk, LastSlash, ParentOf, NameOf, Entered, Globals;
    InodeMarked(s.inodes, z.groups, z.perI, group, index);
  }

  /** The root directory in an empty file system. */
  lemma RootOk(data: Bitmap, inodes: Bitmap, perD: nat, perI: nat)
    requires |data| == |inodes| >= 1 && perD >= 1 && perI >= 1 && Shape(data, |data|, perD)
    requires Shape(inodes, |inodes|, perI)
    requires forall g, i :: 0 <= g < |data| && 0 <= i < perD ==> data[g][i].Free?
    requires forall g, i :: 0 <= g < |inodes| && 0 <= i < perI ==> inodes[g][i].Free?
    ensures var z := Geometry(|data|, perD, perI);
      Good(z, State(Set(data, 0, 0, Used(0)), Set(inodes, 0, 0, Used(0)), perD * |data| - 1, perI * |data| - 1,
        map[0 := [(".", 0), ("..", 0)]], map[0 := Directory], map[0 := [0]], map["/" := 0]))
  {
    hide FreeTotal, LastSlash, ParentOf, NameOf;
    FreshTotal(data, perD);
    FreshTotal(inodes, perI);
    SetInTotal(data, 0, 0, 0);
    SetInTotal(inodes, 0, 0, 0);
    DivModOf(0, perD, 0, 0);
    DivModOf(0, perI, 0, 0);
    assert InodeUsed(Set(inodes, 0, 0, Used(0)), perI, 0) && BlockOf(Set(data, 0, 0, Used(0)), perD, 0, 0);
  }

  lemma CountsAre(z: Geometry, s: State)
    requires Good(z, s)
    ensures s.dataFree == FreeTotal(s.data) && s.inodesFree == FreeTotal(s.inodes)
    ensures z.perI >= 1 && Shape(s.inodes, z.groups, z.perI)
  {
  }

  lemma FileOfName(z: Geometry, s: State, path: string)
    requires Good(z, s) && path in s.names
    ensures s.names[path] in s.blocks && InodeUsed(s.inodes, z.perI, s.names[path])
    ensures forall b :: b in s.blocks[s.names[path]] ==> BlockOf(s.data, z.perD, b, s.names[path])
  {
  }

  lemma GoodVerifies(z: Geometry, s: State)
    requires Good(z, s)
    ensures Readable(z, s) && Verifies(z, s)
  {
    hide FreeTotal, Listed, InodeUsed;
    forall path | path in s.names ensures BlocksMarked(z, s, path) {
      FileOfName(z, s, path);
    }
  }

  lemma MarkedShape(before: Bitmap, after: Bitmap, cells: seq<Block>, n: int, groups: nat, perGroup: nat)
    requires Marked(before, after, cells, n) && Shape(before, groups, perGroup)
    ensures Shape(after, groups, perGroup)
  {
  }

  lemma InodeMarked(b: Bitmap, groups: nat, perGroup: nat, g: nat, i: nat)
    requires Shape(b, groups, perGroup) && IsFree(b, (g, i))
    ensures var n := i + g * perGroup; n >= 0 && n / perGroup == g && n % perGroup == i
    ensures var n := i + g * perGroup; var b' := Set(b, g, i, Used(n));
      Shape(b', groups, perGroup) && FreeTotal(b') == FreeTotal(b) - 1
  {
    MulNonNegative(g, perGroup);
    DivModOf(i + g * perGroup, perGroup, g, i);
    SetInTotal(b, g, i, i + g * perGroup);
  }

  /** A path not listed by its parent is not in use, unless it is the root's. */
  lemma OnlyRootAborts(z: Geometry, s: State, path: string)
    requires Good(z, s) && ParentOf(path) in s.names && s.names[ParentOf(path)] in s.dirs
    requires !Lists(s.dirs[s.names[ParentOf(path)]], NameOf(path))
    ensures path in s.names <==> path == "/"
    ensures s.names[ParentOf(path)] >= 0 && s.names[ParentOf(path)] / z.perI < |s.inodes|
  {
    hide ParentOf, NameOf, LastSlash;
    assert InodeUsed(s.inodes, z.perI, s.names[ParentOf(path)]);
  }

  /** The directories after a new entry; a new directory lists itself and its parent. */
  function Entered(dirs: map<int, Listing>, parent: int, name: string, n: int, kind: Kind): map<int, Listing>
    requires parent in dirs
  {
    var listed := dirs[parent := dirs[parent] + [(name, n)]];
    if kind.Directory? then listed[n := [(".", 0), ("..", 0)]] else listed
  }

  lemma ListingsKept(names: map<string, int>, dirs: map<int, Listing>, blocks: map<int, seq<int>>, parent: int,
      name: string, n: int, kind: Kind)
    requires NamesOk(names, dirs, blocks) && parent in dirs && n !in blocks
    ensures var dirs' := Entered(dirs, parent, name, n, kind);
      && (forall d :: d in dirs ==> d in dirs' && dirs'[d] == if d == parent then dirs[d] + [(name, n)] else dirs[d])
      && (forall d :: d in dirs' ==> d in dirs || d == n)
  {
  }

  /** The group `m` places up from the target has no free inode. */
  ghost predicate EmptyAt(b: Bitmap, target: nat, m: nat) {
    target < |b| && m < |b| && FreeInRow(b[Wrap(target + m, |b|)]) == 0
  }

  /** `up` groups above the target and `down` below it have no free inode. */
  ghost predicate Around(b: Bitmap, target: nat, up: nat, down: nat) {
    forall m: nat :: 1 <= m <= up || |b| - down <= m < |b| ==> EmptyAt(b, target, m)
  }

  lemma AroundNone(b: Bitmap, target: nat)
    ensures Around(b, target, 0, 0)
  {
  }

  /** One more group found empty, above (the `up`-th) or below (the `down`-th). */
  lemma AroundStep(b: Bitmap, target: nat, up: nat, down: nat, above: bool)
    requires target < |b| && up < |b| && down < |b|
    requires if above then up >= 1 && Around(b, target, up - 1, down) else down >= 1 && Around(b, target, up, down - 1)
    requires FreeInRow(b[Wrap(if above then target + up else target + |b| - down, |b|)]) == 0
    ensures Around(b, target, up, down)
  {
    assert EmptyAt(b, target, if above then up else |b| - down);
  }

  /** The group is `d` places up, and those less far up or down have no free inode; or it is `d` places down, and
      then the one `d` places up has none either. */
  ghost predicate NearestAt(b: Bitmap, target: nat, r: nat, d: nat) {
    && target < |b| && r < |b| && FreeInRow(b[r]) > 0 && 1 <= d < |b|
    && ((r == Wrap(target + d, |b|) && Around(b, target, d - 1, d - 1))
        || (r == Wrap(target + |b| - d, |b|) && Around(b, target, d, d - 1)))
  }

  ghost predicate Nearest(b: Bitmap, target: nat, r: nat) { exists d :: NearestAt(b, target, r, d) }

  lemma FoundNearest(b: Bitmap, target: nat, up: nat, down: nat, above: bool)
    requires target < |b| && up < |b| && down < |b|
    requires if above then up == down + 1 && Around(b, target, up - 1, down)
      else down == up >= 1 && Around(b, target, up, down - 1)
    requires var r := Wrap(if above then target + up else target + |b| - down, |b|); r < |b| && FreeInRow(b[r]) > 0
    ensures Nearest(b, target, Wrap(if above then target + up else target + |b| - down, |b|))
  {
    hide Around, Wrap;
    assert NearestAt(b, target, Wrap(if above then target + up else target + |b| - down, |b|),
      if above then up else down);
  }

  lemma NearestHasFree(b: Bitmap, target: nat, r: nat)
    requires Nearest(b, target, r)
    ensures r < |b| && FreeInRow(b[r]) > 0
  {
  }

  lemma AllAround(b: Bitmap, target: nat, up: nat, down: nat)
    requires target < |b| && up + down == |b| - 1 && Around(b, target, up, down)
    ensures forall g :: 0 <= g < |b| && g != target ==> FreeInRow(b[g]) == 0
  {
    forall g | 0 <= g < |b| && g != target ensures FreeInRow(b[g]) == 0 {
      assert EmptyAt(b, target, if g > target then g - target else g + |b| - target);
    }
  }

  /** Python's (a - 1) % n. */
  lemma BackOne(a: nat, n: nat)
    requires a < n
    ensures (a - 1) % n == Wrap(a + n - 1, n)
  {
    if a == 0 { DivModOf(-1, n, -1, n - 1); } else { WrapIsMod(a - 1, n); }
  }

  /** The next group up, round the end. */
  function Up(g: int, n: nat): int
    requires n >= 1
  {
    (g + 1) % n
  }

  function Down(g: int, n: nat): int
    requires n >= 1
  {
    (g - 1) % n
  }

  lemma NextUp(x: nat, n: nat)
    requires x + 1 < 2 * n
    ensures Wrap(x, n) < n && Wrap(x + 1, n) < n && Up(Wrap(x, n), n) == Wrap(x + 1, n)
    ensures x < n ==> Wrap(x, n) == x
    ensures x + 1 >= n ==> Wrap(x + 1, n) == x + 1 - n
  {
    WrapIsMod(Wrap(x, n) + 1, n);
  }

  /** The group of the next visit; with it the first lap is over, or it is another than the target. */
  lemma NextVisit(target: nat, v: nat, n: nat)
    requires target < n && v >= 1
    ensures Up((target + v - 1) % n, n) == (target + v) % n < n
    ensures (target + v - 1) % n < n && Wrap((target + v - 1) % n + 1, n) == (target + v) % n
    ensures v <= n ==> ((target + v) % n == target <==> v == n)
  {
    var q, r := (target + v - 1) / n, (target + v - 1) % n;
    assert target + v - 1 == q * n + r;
    WrapIsMod(r + 1, n);
    if r + 1 < n { DivModOf(target + v, n, q, r + 1); } else { DivModOf(target + v, n, q + 1, 0); }
    if v < n { WrapIsMod(target + v, n); } else if v == n { DivModOf(target + v, n, 1, target); }
  }

  lemma NextDown(x: nat, n: nat)
    requires 1 <= x < 2 * n
    ensures Wrap(x, n) < n && Down(Wrap(x, n), n) == Wrap(x - 1, n)
    ensures x >= n ==> Wrap(x, n) == x - n
  {
    BackOne(Wrap(x, n), n);
  }

  lemma OneIsFree(b: Bitmap, target: nat)
    requires target < |b| && FreeInRow(b[target]) == 0 && FreeTotal(b) > 0
    ensures !(forall g :: 0 <= g < |b| && g != target ==> FreeInRow(b[g]) == 0)
  {
    if forall g :: 0 <= g < |b| && g != target ==> FreeInRow(b[g]) == 0 { NoneFree(b); }
  }

  // ---------- an instance ----------

  /** The smallest: of two groups with one inode each the root has the first, and the group picked for a
      new directory is the first; the directory gets number -1, and do_verify fails. */
  method FarawayRun() returns (rc: Outcome, passed: bool)
    ensures rc == Success && !passed
  {
    hide Checks, Good, Overbooked, Created, Verifies, InParentsGroup, FindsInode, BestWindow, Readable, FreeTotal,
      Shape;
    var f := new FileSystem(2, 2, 1, 0, false, 1, false, 2);
    ghost var s := f.Now();
    FarawayStart(s);
    rc := f.DoCreate("/a", 1, Directory);
    FarawayReadable(s, f.Now());
    passed := f.DoVerify();
  }

  lemma FarawayStart(s: State)
    requires Good(Geometry(2, 2, 1), s)
    requires forall g, i :: 0 <= g < |s.inodes| && 0 <= i < |s.inodes[g]| ==>
      s.inodes[g][i] == if g == i == 0 then Used(0) else Free
    requires s.names == map["/" := 0] && s.dirs == map[0 := [(".", 0), ("..", 0)]]
      && s.dataFree == 3 && s.inodesFree == 1
    ensures s.inodes == [[Used(0)], [Free]] && BestWindow(s.inodes, 2) == 0
      && !FindsInode(s.inodes, Directory, false, 2)
    ensures Checks(s, "/a", 1, Directory, false, 2) == Success
  {
    hide FreeInRow, BestWindow, FilesOk, NamesOk, FreeTotal;
    assert s.inodes[0] == [Used(0)] && s.inodes[1] == [Free];
    PickedIsFirstBest(s.inodes, 2, 0);
    FullRow(s.inodes[0]);
    assert LastSlash("/a") == 0 by { assert "/a"[..1] == "/"; }
    assert NameOf("/a") == "a" == ['a'] && "."[0] != 'a' && ".."[0] != 'a';
  }

  lemma FarawayReadable(s: State, t: State)
    requires Overbooked(Geometry(2, 2, 1), s, t, "/a", 1, Directory, 0)
    requires Good(Geometry(2, 2, 1), s) && s.names == map["/" := 0] && s.blocks == map[0 := [0]]
    ensures Readable(Geometry(2, 2, 1), t) && Shape(t.data, 2, 2) && Shape(t.inodes, 2, 1)
  {
    hide FilesOk, NamesOk, FreeTotal, Entered, ParentOf, NameOf, Marked, Set, Globals;
    var taken: seq<Block> :| |taken| == 1 && Marked(s.data, t.data, taken, -1)
      && t.blocks == s.blocks[-1 := Globals(taken, 2)];
    OneBlock(s.data, t.data, taken);
    MarkedShape(s.data, t.data, taken, -1, 2, 2);
    SetShape(s.inodes, 2, 1, 0, 0, Used(-1));
    assert t.names == map["/" := 0, "/a" := -1];
    assert t.blocks == map[0 := [0], -1 := Globals(taken, 2)];
  }

  lemma SetShape(b: Bitmap, groups: nat, perGroup: nat, g: nat, i: nat, c: Cell)
    requires Shape(b, groups, perGroup) && g < groups && i < perGroup
    ensures Shape(Set(b, g, i, c), groups, perGroup)
  {
  }

  lemma OneBlock(before: Bitmap, after: Bitmap, taken: seq<Block>)
    requires |taken| == 1 && Marked(before, after, taken, -1) && Shape(before, 2, 2)
    ensures forall b :: b in Globals(taken, 2) ==> b >= 0 && b / 2 < 2
  {
    assert taken[0] in taken && taken[..0] == [];
    assert Globals(taken, 2) == [taken[0].1 + taken[0].0 * 2];
  }
}
