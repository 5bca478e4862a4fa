/** Which blocks the walk of allocate_blocks in file-ffs/ffs.py takes. */
module FfsWalk {
  import opened FfsBitmap

  function Min(a: nat, b: nat): nat { if a < b then a else b }

  /** `n` blocks in a row from (g, i) on, free before and not among the `had`. */
  ghost predicate Run(before: Bitmap, had: seq<Block>, g: nat, i: nat, n: nat) {
    g < |before| && i + n <= |before[g]| && forall x: nat :: i <= x < i + n ==> before[g][x].Free? && (g, x) !in had
  }

  /** With `j` blocks taken, `from` of them before this visit, is there a run long enough? `chunk` blocks will do, or
      all that are still needed. */
  ghost predicate Fits(before: Bitmap, taken: seq<Block>, from: nat, g: nat, size: nat, chunk: nat, j: nat, i: nat) {
    from <= |taken| && j <= size && Run(before, taken[..from], g, i, Min(chunk, size - j))
  }

  /** With `j` blocks taken, some still to take and the limit not reached, the walk passes the index `i`. */
  predicate Passes(taken: seq<Block>, from: nat, to: nat, size: nat, limit: int, end: nat, j: nat, i: nat) {
    && from <= j <= to <= |taken| && j < size && (limit > 0 ==> j < from + limit)
    && (j > from ==> taken[j - 1].1 < i) && i < if j < to then taken[j].1 else end
  }

  /** One visit to a group, walked from its first block up to `end`, takes taken[from..to]: a block is taken exactly
      where a run starts that is long enough, until the limit is reached. */
  ghost predicate Visited(before: Bitmap, taken: seq<Block>, from: nat, to: nat, g: nat, size: nat, chunk: nat,
      limit: int, end: nat) {
    && from <= to <= |taken| <= size && (limit > 0 ==> to - from <= limit)
    && (forall j :: from <= j < to ==>
          taken[j].0 == g && taken[j].1 < end && Fits(before, taken, from, g, size, chunk, j, taken[j].1))
    && (forall i, j :: from <= i < j < to ==> taken[i].1 < taken[j].1)
    && (forall j: nat, i: nat :: Passes(taken, from, to, size, limit, end, j, i) ==>
          !Fits(before, taken, from, g, size, chunk, j, i))
  }

  function VisitEnd(taken: seq<Block>, starts: seq<nat>, v: nat): nat {
    if v + 1 < |starts| then starts[v + 1] else |taken|
  }

  /** Visit `v` is to the group `v` places up from the target; runs are asked for in the first lap only. */
  ghost predicate VisitAt(before: Bitmap, taken: seq<Block>, starts: seq<nat>, v: nat, target: nat, size: nat,
      chunk: nat, limit: int, end: nat) {
    && |before| >= 1 && v < |starts| && starts[v] < size
    && Visited(before, taken, starts[v], VisitEnd(taken, starts, v), (target + v) % |before|, size,
               if v < |before| then chunk else 1, limit,
               if v + 1 < |starts| then |before[(target + v) % |before|]| else end)
  }

  /** The walk so far; visit `v` starts with starts[v] blocks taken. */
  ghost predicate Walked(before: Bitmap, taken: seq<Block>, starts: seq<nat>, target: nat, size: nat, chunk: nat,
      limit: int, end: nat) {
    && starts != [] && starts[0] == 0
    && forall v: nat :: v < |starts| ==> VisitAt(before, taken, starts, v, target, size, chunk, limit, end)
  }

  /** The blocks an allocation takes: those of a walk that is over. */
  ghost predicate Takes(before: Bitmap, taken: seq<Block>, target: nat, size: nat, chunk: nat, limit: int) {
    |taken| == size && exists starts, end :: Walked(before, taken, starts, target, size, chunk, limit, end)
  }

  lemma WalkStarts(before: Bitmap, target: nat, size: nat, chunk: nat, limit: int)
    requires target < |before| && size >= 1
    ensures Walked(before, [], [0], target, size, chunk, limit, 0)
  {
    assert VisitAt(before, [], [0], 0, target, size, chunk, limit, 0);
  }

  /** A block behind all those taken in this visit. */
  lemma RunBehind(before: Bitmap, b: Bitmap, taken: seq<Block>, inode: int, from: nat, g: nat, i: nat, n: nat)
    requires Marked(before, b, taken, inode) && g < |b| && from <= |taken|
    requires forall j :: from <= j < |taken| ==> taken[j].0 == g && taken[j].1 < i
    ensures Run(before, taken[..from], g, i, n) <==> i + n <= |b[g]| && forall x :: i <= x < i + n ==> b[g][x].Free?
  {
    forall x: nat | i <= x < |b[g]|
      ensures b[g][x].Free? <==> before[g][x].Free? && (g, x) !in taken[..from]
    {
      assert (g, x) in taken ==> (g, x) in taken[..from];
    }
  }

  /** What the walk passes one block further on it has passed already, or it is that block. */
  lemma PassesBefore(taken: seq<Block>, from: nat, size: nat, limit: int, index: nat, g: nat, free: bool, j: nat,
      i: nat)
    requires var more := if free then taken + [(g, index)] else taken;
      Passes(more, from, |more|, size, limit, index + 1, j, i)
    requires from <= |taken| && forall k :: from <= k < |taken| ==> taken[k].1 < index
    ensures Passes(taken, from, |taken|, size, limit, index, j, i) || (!free && j == |taken| && i == index)
  {
  }

  lemma SameFits(before: Bitmap, taken: seq<Block>, more: seq<Block>, from: nat, g: nat, size: nat, chunk: nat, j: nat,
      i: nat)
    requires from <= |taken| && from <= |more| && taken[..from] == more[..from]
    ensures Fits(before, taken, from, g, size, chunk, j, i) <==> Fits(before, more, from, g, size, chunk, j, i)
  {
  }

  /** One block further in the last visit. */
  lemma VisitStep(before: Bitmap, taken: seq<Block>, from: nat, g: nat, size: nat, chunk: nat, limit: int,
      index: nat, free: bool)
    requires Visited(before, taken, from, |taken|, g, size, chunk, limit, index) && |taken| < size
    requires limit > 0 ==> |taken| < from + limit
    requires free <==> Fits(before, taken, from, g, size, chunk, |taken|, index)
    ensures var more := if free then taken + [(g, index)] else taken;
      Visited(before, more, from, |more|, g, size, chunk, limit, index + 1)
  {
    hide Run, Fits, Passes, Min;
    var more := if free then taken + [(g, index)] else taken;
    assert more[..from] == taken[..from];
    forall j: nat, i: nat | Passes(more, from, |more|, size, limit, index + 1, j, i)
      ensures !Fits(before, more, from, g, size, chunk, j, i)
    {
      PassesBefore(taken, from, size, limit, index, g, free, j, i);
      SameFits(before, taken, more, from, g, size, chunk, j, i);
    }
    forall j | from <= j < |more| ensures Fits(before, more, from, g, size, chunk, j, more[j].1) {
      SameFits(before, taken, more, from, g, size, chunk, j, more[j].1);
    }
  }

  /** A finished visit does not depend on what is taken later. */
  lemma VisitKept(before: Bitmap, taken: seq<Block>, more: seq<Block>, from: nat, to: nat, g: nat, size: nat,
      chunk: nat, limit: int, end: nat)
    requires Visited(before, taken, from, to, g, size, chunk, limit, end) && taken <= more && |more| <= size
    ensures Visited(before, more, from, to, g, size, chunk, limit, end)
  {
    hide Run;
    assert more[..from] == taken[..from];
    forall j: nat, i: nat | Passes(more, from, to, size, limit, end, j, i)
      ensures !Fits(before, more, from, g, size, chunk, j, i)
    {
      assert Passes(taken, from, to, size, limit, end, j, i);
    }
  }

  lemma WalkStep(before: Bitmap, b: Bitmap, taken: seq<Block>, inode: int, starts: seq<nat>, target: nat, size: nat,
      chunk: nat, limit: int, index: nat, need: nat, free: bool)
    requires Walked(before, taken, starts, target, size, chunk, limit, index) && Marked(before, b, taken, inode)
    requires |before| >= 1 && |taken| < size && (limit > 0 ==> |taken| < starts[|starts| - 1] + limit)
    requires need == Min(if |starts| <= |before| then chunk else 1, size - |taken|)
    requires free <==> var g := (target + |starts| - 1) % |before|;
      index + need <= |b[g]| && forall x :: index <= x < index + need ==> b[g][x].Free?
    ensures var more := if free then taken + [((target + |starts| - 1) % |before|, index)] else taken;
      Walked(before, more, starts, target, size, chunk, limit, index + 1)
  {
    hide Visited, Marked, Run;
    var last, next := |starts| - 1, index + 1;
    var from, g: nat := starts[last], (target + last) % |before|;
    var more := if free then taken + [(g, index)] else taken;
    assert VisitAt(before, taken, starts, last, target, size, chunk, limit, index);
    assert |b| == |before| by { SameSize(before, b, taken, inode); }
    BehindIsFree(before, b, taken, inode, from, g, size, if last < |before| then chunk else 1, limit, index);
    VisitStep(before, taken, from, g, size, if last < |before| then chunk else 1, limit, index, free);
    forall v: nat | v < |starts| ensures VisitAt(before, more, starts, v, target, size, chunk, limit, next) {
      assert VisitAt(before, taken, starts, v, target, size, chunk, limit, index);
      if v < last {
        StartsBounded(before, taken, starts, v, target, size, chunk, limit, index);
        VisitKept(before, taken, more, starts[v], starts[v + 1], (target + v) % |before|, size,
          if v < |before| then chunk else 1, limit, |before[(target + v) % |before|]|);
      }
    }
  }

  lemma SameSize(before: Bitmap, b: Bitmap, taken: seq<Block>, inode: int)
    requires Marked(before, b, taken, inode)
    ensures |b| == |before| && forall g :: 0 <= g < |b| ==> |b[g]| == |before[g]|
  {
  }

  lemma StartsBounded(before: Bitmap, taken: seq<Block>, starts: seq<nat>, v: nat, target: nat, size: nat,
      chunk: nat, limit: int, end: nat)
    requires VisitAt(before, taken, starts, v, target, size, chunk, limit, end)
    ensures starts[v] <= VisitEnd(taken, starts, v) <= |taken| <= size
  {
  }

  lemma BehindIsFree(before: Bitmap, b: Bitmap, taken: seq<Block>, inode: int, from: nat, g: nat, size: nat,
      chunk: nat, limit: int, index: nat)
    requires Visited(before, taken, from, |taken|, g, size, chunk, limit, index) && Marked(before, b, taken, inode)
    requires g < |b|
    ensures var n := Min(chunk, size - |taken|);
      Fits(before, taken, from, g, size, chunk, |taken|, index)
      <==> index + n <= |b[g]| && forall x :: index <= x < index + n ==> b[g][x].Free?
  {
    RunBehind(before, b, taken, inode, from, g, index, Min(chunk, size - |taken|));
  }

  /** On to the next group, at the end of this one or with the limit reached. */
  lemma WalkMoves(before: Bitmap, taken: seq<Block>, starts: seq<nat>, target: nat, size: nat, chunk: nat,
      limit: int, index: nat)
    requires Walked(before, taken, starts, target, size, chunk, limit, index) && |before| >= 1 && |taken| < size
    requires index == |before[(target + |starts| - 1) % |before|]|
      || (limit > 0 && |taken| == starts[|starts| - 1] + limit
          && index <= |before[(target + |starts| - 1) % |before|]|)
    ensures Walked(before, taken, starts + [|taken|], target, size, chunk, limit, 0)
  {
    hide Run;
    var last, next := |starts| - 1, starts + [|taken|];
    forall v: nat | v < |next| ensures VisitAt(before, taken, next, v, target, size, chunk, limit, 0) {
      if v < |starts| { assert VisitAt(before, taken, starts, v, target, size, chunk, limit, index); }
    }
  }

  // ---------- what follows ----------

  /** How many groups the walk from `target` has passed before it is in group `g`. */
  function Lap(g: nat, target: nat, groups: nat): int { if g >= target then g - target else g + groups - target }

  predicate Earlier(c: Block, d: Block, target: nat, groups: nat) {
    Lap(c.0, target, groups) < Lap(d.0, target, groups) || (c.0 == d.0 && c.1 < d.1)
  }

  /** No free block earlier in the walk than one taken was passed over. */
  ghost predicate FirstFit(b: Bitmap, taken: seq<Block>, target: nat) {
    forall c: Block, d: Block :: IsFree(b, c) && d in taken && Earlier(c, d, target, |b|) ==> c in taken
  }

  /** The index is that of a block taken in the visit before the `k`-th, or the walk passes it. */
  lemma TakenOrPassed(taken: seq<Block>, from: nat, to: nat, size: nat, limit: int, end: nat, k: nat, i: nat)
    returns (j: nat)
    requires from <= k <= to <= |taken| && k < size && limit <= 0 && i < if k < to then taken[k].1 else end
    requires forall l, m :: from <= l < m < to ==> taken[l].1 < taken[m].1
    ensures (from <= j < k && taken[j].1 == i) || (j <= k && Passes(taken, from, to, size, limit, end, j, i))
  {
    j := from;
    while j < k && taken[j].1 < i
      invariant from <= j <= k && (j > from ==> taken[j - 1].1 < i)
    {
      j := j + 1;
    }
  }

  lemma FreeNotPassed(before: Bitmap, taken: seq<Block>, from: nat, to: nat, g: nat, size: nat, chunk: nat, limit: int,
      end: nat, j: nat, i: nat)
    requires Visited(before, taken, from, to, g, size, chunk, limit, end) && chunk == 1
    requires IsFree(before, (g, i)) && (g, i) !in taken[..from]
    ensures !Passes(taken, from, to, size, limit, end, j, i)
  {
    if j < size { assert Run(before, taken[..from], g, i, 1) && Fits(before, taken, from, g, size, chunk, j, i); }
  }

  /** Without a limit and with single blocks, a free block passed over would have been taken. */
  lemma FreeIsTaken(before: Bitmap, taken: seq<Block>, from: nat, to: nat, g: nat, size: nat, chunk: nat, limit: int,
      end: nat, k: nat, i: nat)
    requires Visited(before, taken, from, to, g, size, chunk, limit, end) && chunk == 1 && limit <= 0
    requires from <= k <= to && k < size && i < (if k < to then taken[k].1 else end) && IsFree(before, (g, i))
    ensures (g, i) in taken[..k]
  {
    if (g, i) in taken[..from] {
      assert taken[..k][..from] == taken[..from];
    } else {
      var j := TakenOrPassed(taken, from, to, size, limit, end, k, i);
      FreeNotPassed(before, taken, from, to, g, size, chunk, limit, end, j, i);
      assert taken[..k][j] == (g, i);
    }
  }

  lemma LapIsVisit(g: nat, target: nat, groups: nat)
    requires g < groups && target < groups
    ensures 0 <= Lap(g, target, groups) < groups && (target + Lap(g, target, groups)) % groups == g
  {
    if g < target { SubtractMod(target + Lap(g, target, groups), groups); }
  }

  lemma VisitIsLap(v: nat, target: nat, groups: nat)
    requires v < groups && target < groups
    ensures (target + v) % groups < groups && Lap((target + v) % groups, target, groups) == v
  {
    WrapIsMod(target + v, groups);
  }

  lemma {:induction false} StartsAscend(before: Bitmap, taken: seq<Block>, starts: seq<nat>, target: nat, size: nat,
      chunk: nat, limit: int, end: nat, v: nat, w: nat)
    requires Walked(before, taken, starts, target, size, chunk, limit, end) && v <= w < |starts|
    ensures starts[v] <= starts[w] < size
  {
    assert VisitAt(before, taken, starts, w, target, size, chunk, limit, end);
    if v < w {
      StartsAscend(before, taken, starts, target, size, chunk, limit, end, v, w - 1);
      assert VisitAt(before, taken, starts, w - 1, target, size, chunk, limit, end);
    }
  }

  /** The visit in which the `m`-th block was taken. */
  lemma VisitOf(before: Bitmap, taken: seq<Block>, starts: seq<nat>, target: nat, size: nat, chunk: nat, limit: int,
      end: nat, m: nat) returns (v: nat)
    requires Walked(before, taken, starts, target, size, chunk, limit, end) && m < |taken| && |before| >= 1
    ensures v < |starts| && starts[v] <= m < VisitEnd(taken, starts, v) && taken[m].0 == (target + v) % |before|
  {
    v := 0;
    while v + 1 < |starts| && starts[v + 1] <= m
      invariant v < |starts| && starts[v] <= m
    {
      v := v + 1;
    }
    assert VisitAt(before, taken, starts, v, target, size, chunk, limit, end);
  }

  /** With single blocks and no limit: what is free in a group of the first lap is taken before the walk moves on. */
  lemma PassedIsTaken(before: Bitmap, taken: seq<Block>, starts: seq<nat>, target: nat, size: nat, limit: int,
      end: nat, c: Block)
    requires Walked(before, taken, starts, target, size, 1, limit, end) && limit <= 0
    requires target < |before| && IsFree(before, c) && Lap(c.0, target, |before|) + 1 < |starts|
    ensures Lap(c.0, target, |before|) >= 0 && starts[Lap(c.0, target, |before|) + 1] <= |taken|
    ensures c in taken[..starts[Lap(c.0, target, |before|) + 1]]
  {
    hide Visited;
    LapIsVisit(c.0, target, |before|);
    var v: nat := Lap(c.0, target, |before|);
    assert VisitAt(before, taken, starts, v, target, size, 1, limit, end);
    assert VisitAt(before, taken, starts, v + 1, target, size, 1, limit, end);
    StartsBounded(before, taken, starts, v, target, size, 1, limit, end);
    FreeIsTaken(before, taken, starts[v], starts[v + 1], c.0, size, 1, limit, |before[c.0]|, starts[v + 1], c.1);
  }

  /** With single blocks and no limit the walk is over within one lap and takes the first free blocks it meets. */
  lemma SinglesAreFirstFit(before: Bitmap, b: Bitmap, taken: seq<Block>, inode: int, starts: seq<nat>, target: nat,
      size: nat, limit: int, end: nat)
    requires Walked(before, taken, starts, target, size, 1, limit, end) && |taken| == size && limit <= 0
    requires Marked(before, b, taken, inode) && target < |before|
    ensures |starts| <= |before| && FirstFit(before, taken, target)
  {
    hide Visited;
    if |starts| > |before| {
      StartsAscend(before, taken, starts, target, size, 1, limit, end, |before|, |before|);
      var c := taken[starts[|before|]];
      assert c in taken && IsFree(before, c);
      LapIsVisit(c.0, target, |before|);
      var v: nat := Lap(c.0, target, |before|);
      PassedIsTaken(before, taken, starts, target, size, limit, end, c);
      StartsAscend(before, taken, starts, target, size, 1, limit, end, v + 1, |before|);
      assert false;
    }
    forall c: Block, d: Block | IsFree(before, c) && d in taken && Earlier(c, d, target, |before|)
      ensures c in taken
    {
      FitsFirst(before, taken, starts, target, size, limit, end, c, d);
    }
  }

  lemma FitsFirst(before: Bitmap, taken: seq<Block>, starts: seq<nat>, target: nat, size: nat, limit: int, end: nat,
      c: Block, d: Block)
    requires Walked(before, taken, starts, target, size, 1, limit, end) && |taken| == size && limit <= 0
    requires target < |before| && |starts| <= |before|
    requires IsFree(before, c) && d in taken && Earlier(c, d, target, |before|)
    ensures c in taken
  {
    hide Visited;
    var m: nat :| m < |taken| && taken[m] == d;
    var v := VisitOf(before, taken, starts, target, size, 1, limit, end, m);
    VisitIsLap(v, target, |before|);
    if c.0 == d.0 {
      assert VisitAt(before, taken, starts, v, target, size, 1, limit, end);
      var to := VisitEnd(taken, starts, v);
      StartsBounded(before, taken, starts, v, target, size, 1, limit, end);
      FreeIsTaken(before, taken, starts[v], to, c.0, size, 1, limit,
        if v + 1 < |starts| then |before[c.0]| else end, m, c.1);
    } else {
      PassedIsTaken(before, taken, starts, target, size, limit, end, c);
    }
  }

  // ---------- there is one such walk ----------

  /** A block taken lies in the group, behind those before it, and where a run starts. */
  lemma NextTaken(before: Bitmap, taken: seq<Block>, from: nat, to: nat, g: nat, size: nat, chunk: nat, limit: int,
      end: nat, j: nat)
    requires Visited(before, taken, from, to, g, size, chunk, limit, end) && from <= j < to && chunk >= 1
    ensures j < |taken| && taken[j].0 == g < |before| && taken[j].1 < |before[g]|
    ensures (j > from ==> taken[j - 1].1 < taken[j].1) && j < size && (limit > 0 ==> j < from + limit)
    ensures Fits(before, taken, from, g, size, chunk, j, taken[j].1)
  {
    assert Fits(before, taken, from, g, size, chunk, j, taken[j].1);
  }

  lemma FitsNotPassed(before: Bitmap, taken: seq<Block>, from: nat, to: nat, g: nat, size: nat, chunk: nat, limit: int,
      end: nat, j: nat, i: nat)
    requires Visited(before, taken, from, to, g, size, chunk, limit, end)
    requires Fits(before, taken, from, g, size, chunk, j, i)
    ensures !Passes(taken, from, to, size, limit, end, j, i)
  {
  }

  /** Where one visit takes its next block, another that took the same so far has taken one too, there or before. */
  lemma NextNotLater(before: Bitmap, taken: seq<Block>, other: seq<Block>, from: nat, to: nat, to': nat, g: nat,
      size: nat, chunk: nat, limit: int, end: nat, end': nat, j: nat)
    requires Visited(before, taken, from, to, g, size, chunk, limit, end)
    requires Visited(before, other, from, to', g, size, chunk, limit, end')
    requires from <= j < to && j <= to' && taken[..j] == other[..j] && chunk >= 1
    requires g < |before| && (to' == size || end' == |before[g]|)
    ensures taken[j].0 == g && j < to' && other[j].0 == g && other[j].1 <= taken[j].1
  {
    hide Visited, Fits;
    VisitSpan(before, other, from, to', g, size, chunk, limit, end');
    NextTaken(before, taken, from, to, g, size, chunk, limit, end, j);
    assert taken[..from] == taken[..j][..from] && other[..from] == other[..j][..from];
    SameFits(before, taken, other, from, g, size, chunk, j, taken[j].1);
    FitsNotPassed(before, other, from, to', g, size, chunk, limit, end', j, taken[j].1);
    if j < to' { NextTaken(before, other, from, to', g, size, chunk, limit, end', j); }
    assert j > from ==> taken[..j][j - 1] == other[..j][j - 1];
  }

  /** Two visits that begin alike and go to the end take the same blocks. */
  lemma {:induction false} SameVisit(before: Bitmap, taken: seq<Block>, other: seq<Block>, from: nat, to: nat,
      to': nat, g: nat, size: nat, chunk: nat, limit: int, end: nat, end': nat, j: nat)
    requires Visited(before, taken, from, to, g, size, chunk, limit, end)
    requires Visited(before, other, from, to', g, size, chunk, limit, end')
    requires from <= j <= to && j <= to' && taken[..j] == other[..j] && chunk >= 1
    requires g < |before| && (to == size || end == |before[g]|) && (to' == size || end' == |before[g]|)
    ensures to == to' && taken[..to] == other[..to]
    decreases |taken| - j
  {
    VisitSpan(before, taken, from, to, g, size, chunk, limit, end);
    VisitSpan(before, other, from, to', g, size, chunk, limit, end');
    hide Visited;
    if j < to { NextNotLater(before, taken, other, from, to, to', g, size, chunk, limit, end, end', j); }
    if j < to' { NextNotLater(before, other, taken, from, to', to, g, size, chunk, limit, end', end, j); }
    if j < to {
      OneMoreAlike(taken, other, j);
      SameVisit(before, taken, other, from, to, to', g, size, chunk, limit, end, end', j + 1);
    }
  }

  lemma OneMoreAlike(taken: seq<Block>, other: seq<Block>, j: nat)
    requires j < |taken| && j < |other| && taken[..j] == other[..j] && taken[j] == other[j]
    ensures taken[..j + 1] == other[..j + 1]
  {
    assert taken[..j + 1] == taken[..j] + [taken[j]] && other[..j + 1] == other[..j] + [other[j]];
  }

  lemma VisitSpan(before: Bitmap, taken: seq<Block>, from: nat, to: nat, g: nat, size: nat, chunk: nat, limit: int,
      end: nat)
    requires Visited(before, taken, from, to, g, size, chunk, limit, end)
    ensures from <= to <= |taken| <= size
  {
  }

  lemma {:induction false} SameStarts(before: Bitmap, taken: seq<Block>, other: seq<Block>, starts: seq<nat>,
      starts': seq<nat>, target: nat, size: nat, chunk: nat, limit: int, end: nat, end': nat, v: nat)
    requires Walked(before, taken, starts, target, size, chunk, limit, end) && |taken| == size && |before| >= 1
    requires Walked(before, other, starts', target, size, chunk, limit, end') && |other| == size && chunk >= 1
    requires v < |starts| && v < |starts'|
    ensures starts[v] == starts'[v] < size && taken[..starts[v]] == other[..starts[v]]
  {
    hide Visited;
    assert VisitAt(before, taken, starts, v, target, size, chunk, limit, end);
    if v > 0 {
      SameStarts(before, taken, other, starts, starts', target, size, chunk, limit, end, end', v - 1);
      OneVisit(before, taken, other, starts, starts', target, size, chunk, limit, end, end', v - 1);
    }
  }

  lemma OneVisit(before: Bitmap, taken: seq<Block>, other: seq<Block>, starts: seq<nat>, starts': seq<nat>,
      target: nat, size: nat, chunk: nat, limit: int, end: nat, end': nat, v: nat)
    requires Walked(before, taken, starts, target, size, chunk, limit, end) && |taken| == size && |before| >= 1
    requires Walked(before, other, starts', target, size, chunk, limit, end') && |other| == size && chunk >= 1
    requires v < |starts| && v < |starts'|
    requires starts[v] == starts'[v] < size && taken[..starts[v]] == other[..starts[v]]
    ensures VisitEnd(taken, starts, v) == VisitEnd(other, starts', v) <= size
    ensures taken[..VisitEnd(taken, starts, v)] == other[..VisitEnd(taken, starts, v)]
  {
    hide Visited;
    assert VisitAt(before, taken, starts, v, target, size, chunk, limit, end);
    assert VisitAt(before, other, starts', v, target, size, chunk, limit, end');
    StartsBounded(before, taken, starts, v, target, size, chunk, limit, end);
    StartsBounded(before, other, starts', v, target, size, chunk, limit, end');
    var g := (target + v) % |before|;
    SameVisit(before, taken, other, starts[v], VisitEnd(taken, starts, v), VisitEnd(other, starts', v), g, size,
      if v < |before| then chunk else 1, limit,
      if v + 1 < |starts| then |before[g]| else end, if v + 1 < |starts'| then |before[g]| else end', starts[v]);
  }

  /** The bitmap, the target, the size, the policy and the limit determine the blocks, in order. */
  lemma WalkIsDetermined(before: Bitmap, taken: seq<Block>, other: seq<Block>, starts: seq<nat>, starts': seq<nat>,
      target: nat, size: nat, chunk: nat, limit: int, end: nat, end': nat)
    requires Walked(before, taken, starts, target, size, chunk, limit, end) && |taken| == size && |before| >= 1
    requires Walked(before, other, starts', target, size, chunk, limit, end') && |other| == size && chunk >= 1
    ensures taken == other
  {
    hide VisitAt;
    var v := |starts| - 1;
    if |starts'| <= v { v := |starts'| - 1; }
    SameStarts(before, taken, other, starts, starts', target, size, chunk, limit, end, end', v);
    OneVisit(before, taken, other, starts, starts', target, size, chunk, limit, end, end', v);
    if v + 1 < |starts| { StartsAscend(before, taken, starts, target, size, chunk, limit, end, v + 1, v + 1); }
    if v + 1 < |starts'| { StartsAscend(before, other, starts', target, size, chunk, limit, end', v + 1, v + 1); }
    assert taken[..size] == taken && other[..size] == other;
  }
}
