/** Extents, tilings, sorting and coalescing: what vm-freespace/malloc.py does to its free list, and the
    theorems about it.  The allocator class itself is in Malloc.dfy. */
module Heap {

  datatype Extent = Extent(addr: int, size: int)

  datatype Policy = FIRST | BEST | WORST

  datatype ListOrder = ADDRSORT | SIZESORT_UP | SIZESORT_DOWN | INSERT_FRONT | INSERT_BACK

  ghost predicate Apart(a: Extent, b: Extent) {
    a.addr + a.size <= b.addr || b.addr + b.size <= a.addr
  }

  ghost predicate Inside(e: Extent, start: int, size: int) {
    e.size >= 1 && start <= e.addr && e.addr + e.size <= start + size
  }

  ghost predicate Has(e: Extent, x: int) {
    e.addr <= x < e.addr + e.size
  }

  ghost predicate InFree(free: multiset<Extent>, x: int) {
    exists e :: e in free && Has(e, x)
  }

  ghost predicate InUse(alloc: map<int, int>, x: int) {
    exists a :: a in alloc && Has(Extent(a, alloc[a]), x)
  }

  /** Free and allocated extents lie in the heap, do not overlap, and leave no byte out. */
  ghost predicate Tiles(free: multiset<Extent>, alloc: map<int, int>, start: int, size: int) {
    && (forall e :: e in free ==> Inside(e, start, size) && free[e] == 1)
    && (forall a :: a in alloc ==> Inside(Extent(a, alloc[a]), start, size))
    && (forall e, f :: e in free && f in free && e != f ==> Apart(e, f))
    && (forall a, b :: a in alloc && b in alloc && a != b ==> Apart(Extent(a, alloc[a]), Extent(b, alloc[b])))
    && (forall e, a :: e in free && a in alloc ==> Apart(e, Extent(a, alloc[a])))
    && (forall x :: start <= x < start + size ==> InFree(free, x) || InUse(alloc, x))
  }

  // ---------- what malloc and free do to a tiling ----------

  /** Taking the front of a free extent, all of it or less. */
  ghost function Carve(free: multiset<Extent>, e: Extent, need: int): multiset<Extent> {
    if e.size > need then free - multiset{e} + multiset{Extent(e.addr + need, e.size - need)} else free - multiset{e}
  }

  /** A byte of the extent cut is in one of the two pieces, and every other where it was. */
  lemma SplitCovers(free: multiset<Extent>, e: Extent, n: int, x: int)
    requires InFree(free, x) && 1 <= n < e.size
    ensures InFree(free - multiset{e} + multiset{Extent(e.addr, n)} + multiset{Extent(e.addr + n, e.size - n)}, x)
  {
    var f, g := Extent(e.addr, n), Extent(e.addr + n, e.size - n);
    var free' := free - multiset{e} + multiset{f} + multiset{g};
    var h :| h in free && Has(h, x);
    if h == e {
      assert if x < e.addr + n then f in free' && Has(f, x) else g in free' && Has(g, x);
    } else {
      assert h in free';
    }
  }

  lemma SplitTiles(free: multiset<Extent>, alloc: map<int, int>, start: int, size: int, e: Extent, n: int)
    requires Tiles(free, alloc, start, size) && e in free && 1 <= n < e.size
    ensures Tiles(free - multiset{e} + multiset{Extent(e.addr, n)} +
      multiset{Extent(e.addr + n, e.size - n)}, alloc, start, size)
  {
    var f, g := Extent(e.addr, n), Extent(e.addr + n, e.size - n);
    var free' := free - multiset{e} + multiset{f} + multiset{g};
    assert free[e] == 1 && Inside(e, start, size);
    assert f in free ==> f == e || Apart(f, e);
    assert g in free ==> g == e || Apart(g, e);
    forall h | h in free' ensures h == f || h == g || (h in free && h != e && Apart(h, e)) {}
    forall x | start <= x < start + size ensures InFree(free', x) || InUse(alloc, x) {
      if InFree(free, x) {
        SplitCovers(free, e, n, x);
      }
    }
  }

  /** A byte of the extent moved is in use afterwards, and every other is where it was. */
  lemma ClaimCovers(free: multiset<Extent>, alloc: map<int, int>, e: Extent, x: int)
    requires (InFree(free, x) || InUse(alloc, x)) && e.addr !in alloc
    ensures InFree(free - multiset{e}, x) || InUse(alloc[e.addr := e.size], x)
  {
    var free', alloc' := free - multiset{e}, alloc[e.addr := e.size];
    if InUse(alloc, x) {
      var a :| a in alloc && Has(Extent(a, alloc[a]), x);
      assert a in alloc';
    } else {
      var f :| f in free && Has(f, x);
      if f == e { assert e.addr in alloc'; } else { assert f in free'; }
    }
  }

  lemma ClaimTiles(free: multiset<Extent>, alloc: map<int, int>, start: int, size: int, e: Extent)
    requires Tiles(free, alloc, start, size) && e in free
    ensures e.addr !in alloc && Tiles(free - multiset{e}, alloc[e.addr := e.size], start, size)
  {
    var free', alloc' := free - multiset{e}, alloc[e.addr := e.size];
    hide InFree, InUse, Has;
    assert free[e] == 1 && Inside(e, start, size);
    assert e.addr in alloc ==> Apart(e, Extent(e.addr, alloc[e.addr]));
    forall x | start <= x < start + size ensures InFree(free', x) || InUse(alloc', x) {
      ClaimCovers(free, alloc, e, x);
    }
  }

  lemma CarveTiles(free: multiset<Extent>, alloc: map<int, int>, start: int, size: int, e: Extent, need: int)
    requires Tiles(free, alloc, start, size) && e in free && 1 <= need <= e.size
    ensures e.addr !in alloc && Tiles(Carve(free, e, need), alloc[e.addr := need], start, size)
  {
    hide Tiles;
    if need < e.size {
      SplitTiles(free, alloc, start, size, e, need);
      var f, g := Extent(e.addr, need), Extent(e.addr + need, e.size - need);
      var mid := free - multiset{e} + multiset{f} + multiset{g};
      ClaimTiles(mid, alloc, start, size, f);
      assert mid - multiset{f} == Carve(free, e, need);
    } else {
      ClaimTiles(free, alloc, start, size, e);
    }
  }

  lemma ReleaseTiles(free: multiset<Extent>, alloc: map<int, int>, start: int, size: int, a: int)
    requires Tiles(free, alloc, start, size) && a in alloc
    ensures Tiles(free + multiset{Extent(a, alloc[a])}, alloc - {a}, start, size)
  {
    var e := Extent(a, alloc[a]);
    var free', alloc' := free + multiset{e}, alloc - {a};
    assert e !in free;
    forall x | start <= x < start + size ensures InFree(free', x) || InUse(alloc', x) {
      if InFree(free, x) {
        var f :| f in free && Has(f, x);
        assert f in free';
      } else {
        var b :| b in alloc && Has(Extent(b, alloc[b]), x);
        if b == a { assert e in free'; } else { assert b in alloc'; }
      }
    }
  }

  lemma MergeTiles(free: multiset<Extent>, alloc: map<int, int>, start: int, size: int, e: Extent, f: Extent)
    requires Tiles(free, alloc, start, size) && e in free && f in free && f.addr == e.addr + e.size
    ensures Tiles(free - multiset{e} - multiset{f} + multiset{Extent(e.addr, e.size + f.size)}, alloc, start, size)
  {
    var m := Extent(e.addr, e.size + f.size);
    var free' := free - multiset{e} - multiset{f} + multiset{m};
    assert Inside(e, start, size) && Inside(f, start, size) && e != f && free[e] == free[f] == 1;
    assert m in free ==> m == e || m == f || Apart(m, e);
    forall g | g in free' ensures g == m || (g in free && g != e && g != f) {}
    forall g | g in free' && g != m ensures Apart(g, m) {
      assert Apart(g, e) && Apart(g, f);
    }
    forall x | start <= x < start + size ensures InFree(free', x) || InUse(alloc, x) {
      if InFree(free, x) {
        var g :| g in free && Has(g, x);
        if g == e || g == f { assert m in free' && Has(m, x); } else { assert g in free'; }
      }
    }
  }

  // ---------- order ----------

  function Key(order: ListOrder, e: Extent): int {
    if order == ADDRSORT then e.addr else if order == SIZESORT_DOWN then -e.size else e.size
  }

  ghost predicate SortedBy(order: ListOrder, l: seq<Extent>) {
    forall i, j :: 0 <= i < j < |l| ==> Key(order, l[i]) <= Key(order, l[j])
  }

  /** Put `x` behind every element that does not come after it. */
  function Insert(order: ListOrder, l: seq<Extent>, x: Extent): seq<Extent> {
    if l == [] then [x]
    else if Key(order, l[|l| - 1]) <= Key(order, x) then l + [x]
    else Insert(order, l[..|l| - 1], x) + [l[|l| - 1]]
  }

  /** The stable sort of a list, which is what Python's sorted returns. */
  function Sort(order: ListOrder, l: seq<Extent>): seq<Extent> {
    if l == [] then [] else Insert(order, Sort(order, l[..|l| - 1]), l[|l| - 1])
  }

  lemma {:induction false} InsertAdds(order: ListOrder, l: seq<Extent>, x: Extent)
    ensures multiset(Insert(order, l, x)) == multiset(l) + multiset{x}
  {
    if l != [] {
      InsertAdds(order, l[..|l| - 1], x);
      assert l == l[..|l| - 1] + [l[|l| - 1]];
    }
  }

  lemma {:induction false} InsertSorts(order: ListOrder, l: seq<Extent>, x: Extent)
    requires SortedBy(order, l)
    ensures SortedBy(order, Insert(order, l, x))
    ensures forall i :: 0 <= i < |Insert(order, l, x)| ==>
      Key(order, Insert(order, l, x)[i]) <= Key(order, x)
        || (l != [] && Key(order, Insert(order, l, x)[i]) <= Key(order, l[|l| - 1]))
  {
    if l != [] && Key(order, l[|l| - 1]) > Key(order, x) {
      var front := l[..|l| - 1];
      InsertSorts(order, front, x);
      assert front != [] ==> Key(order, front[|front| - 1]) <= Key(order, l[|l| - 1]);
    }
  }

  /** Sorting permutes the list and puts it in order. */
  lemma {:induction false} SortIs(order: ListOrder, l: seq<Extent>)
    ensures multiset(Sort(order, l)) == multiset(l) && SortedBy(order, Sort(order, l))
  {
    if l != [] {
      hide SortedBy, Insert;
      var front, last := l[..|l| - 1], l[|l| - 1];
      SortIs(order, front);
      InsertAdds(order, Sort(order, front), last);
      InsertSorts(order, Sort(order, front), last);
      assert l == front + [last];
    }
  }

  /** Sorting keeps the order of extents with equal keys. */
  lemma {:induction false} SortIsStable(order: ListOrder, l: seq<Extent>, k: int)
    ensures Same(order, Sort(order, l), k) == Same(order, l, k)
  {
    if l != [] {
      SortIsStable(order, l[..|l| - 1], k);
      InsertIsStable(order, Sort(order, l[..|l| - 1]), l[|l| - 1], k);
    }
  }

  /** The elements with key `k`, in order. */
  ghost function Same(order: ListOrder, l: seq<Extent>, k: int): seq<Extent> {
    if l == [] then [] else Same(order, l[..|l| - 1], k) + (if Key(order, l[|l| - 1]) == k then [l[|l| - 1]] else [])
  }

  lemma SameAdd(order: ListOrder, l: seq<Extent>, x: Extent, k: int)
    ensures Same(order, l + [x], k) == Same(order, l, k) + (if Key(order, x) == k then [x] else [])
  {
    assert (l + [x])[..|l|] == l;
  }

  lemma {:induction false} InsertIsStable(order: ListOrder, l: seq<Extent>, x: Extent, k: int)
    ensures Same(order, Insert(order, l, x), k) == Same(order, l, k) + (if Key(order, x) == k then [x] else [])
  {
    if l == [] || Key(order, l[|l| - 1]) <= Key(order, x) {
      assert Insert(order, l, x) == l + [x];
      SameAdd(order, l, x, k);
    } else {
      var front, last := l[..|l| - 1], l[|l| - 1];
      InsertIsStable(order, front, x, k);
      SameAdd(order, Insert(order, front, x), last, k);
    }
  }

  /** Where free puts a block's extent. */
  function Place(order: ListOrder, free: seq<Extent>, e: Extent): seq<Extent> {
    match order
    case INSERT_BACK => free + [e]
    case INSERT_FRONT => [e] + free
    case _ => Sort(order, free + [e])
  }

  lemma PlaceIs(order: ListOrder, free: seq<Extent>, e: Extent)
    ensures multiset(Place(order, free, e)) == multiset(free) + multiset{e} && |Place(order, free, e)| == |free| + 1
    ensures !order.INSERT_BACK? && !order.INSERT_FRONT? ==> SortedBy(order, Place(order, free, e))
  {
    SortIs(order, free + [e]);
    assert |multiset(Place(order, free, e))| == |Place(order, free, e)|;
  }

  /** Where the freed extent and the others stand afterwards. */
  lemma PlaceOrder(order: ListOrder, free: seq<Extent>, e: Extent, i: nat, j: nat)
    requires i < j <= |free|
    ensures |Place(order, free, e)| == |free| + 1
    ensures var l := Place(order, free, e);
      match order
      case INSERT_FRONT => l[0] == e && l[1..] == free
      case INSERT_BACK => l[|free|] == e && l[..|free|] == free
      case ADDRSORT => l[i].addr <= l[j].addr
      case SIZESORT_UP => l[i].size <= l[j].size
      case SIZESORT_DOWN => l[i].size >= l[j].size
  {
    hide Sort;
    PlaceIs(order, free, e);
    var l := Place(order, free, e);
    assert !order.INSERT_BACK? && !order.INSERT_FRONT? ==> Key(order, l[i]) <= Key(order, l[j]);
  }

  // ---------- coalescing ----------

  /** One pass over the list from `cur` on, merging each extent that starts where the previous one ends. */
  function CoalesceFrom(cur: Extent, rest: seq<Extent>): seq<Extent>
    decreases |rest|
  {
    if rest == [] then [cur]
    else if rest[0].addr == cur.addr + cur.size then CoalesceFrom(Extent(cur.addr, cur.size + rest[0].size), rest[1..])
    else [cur] + CoalesceFrom(rest[0], rest[1..])
  }

  function Coalesce(l: seq<Extent>): seq<Extent> {
    if l == [] then [] else CoalesceFrom(l[0], l[1..])
  }

  /** No extent of the list ends where the next one in the list starts. */
  ghost predicate NoneTouch(l: seq<Extent>) {
    forall i, j :: 0 <= i < j < |l| && j == i + 1 ==> l[i].addr + l[i].size != l[j].addr
  }

  /** Whatever the order of the list, after the pass no two neighbours in it touch. */
  lemma {:induction false} CoalescedApart(cur: Extent, rest: seq<Extent>)
    ensures CoalesceFrom(cur, rest) != [] && CoalesceFrom(cur, rest)[0].addr == cur.addr
    ensures NoneTouch(CoalesceFrom(cur, rest))
    decreases |rest|
  {
    if rest != [] {
      if rest[0].addr == cur.addr + cur.size {
        CoalescedApart(Extent(cur.addr, cur.size + rest[0].size), rest[1..]);
      } else {
        CoalescedApart(rest[0], rest[1..]);
      }
    }
  }

  lemma FirstOfRest(done: seq<Extent>, cur: Extent, rest: seq<Extent>)
    requires rest != []
    ensures multiset(done) + multiset{cur} + multiset(rest)
         == multiset(done) + multiset{cur} + multiset{rest[0]} + multiset(rest[1..])
         == multiset(done + [cur]) + multiset{rest[0]} + multiset(rest[1..])
  {
    assert rest == [rest[0]] + rest[1..];
  }

  lemma {:induction false} CoalesceTiles(done: seq<Extent>, cur: Extent, rest: seq<Extent>,
      alloc: map<int, int>, start: int, size: int)
    requires Tiles(multiset(done) + multiset{cur} + multiset(rest), alloc, start, size)
    ensures Tiles(multiset(done) + multiset(CoalesceFrom(cur, rest)), alloc, start, size)
    decreases |rest|
  {
    hide Tiles;
    if rest == [] {
      assert multiset(done) + multiset{cur} + multiset(rest) == multiset(done) + multiset([cur]);
    } else {
      FirstOfRest(done, cur, rest);
      if rest[0].addr == cur.addr + cur.size {
        var all := multiset(done) + multiset{cur} + multiset(rest);
        var m := Extent(cur.addr, cur.size + rest[0].size);
        MergeTiles(all, alloc, start, size, cur, rest[0]);
        assert all - multiset{cur} - multiset{rest[0]} + multiset{m} ==
          multiset(done) + multiset{m} + multiset(rest[1..]);
        CoalesceTiles(done, m, rest[1..], alloc, start, size);
      } else {
        var tail := CoalesceFrom(rest[0], rest[1..]);
        CoalesceTiles(done + [cur], rest[0], rest[1..], alloc, start, size);
        assert multiset(done + [cur]) + multiset(tail) == multiset(done) + multiset([cur] + tail);
      }
    }
  }

  /** In address order with a gap after every extent: nothing left to merge. */
  ghost predicate Normal(l: seq<Extent>) {
    && (forall i :: 0 <= i < |l| ==> l[i].size >= 1)
    && (forall i, j :: 0 <= i < j < |l| ==> l[i].addr + l[i].size < l[j].addr)
  }

  /** In address order without overlap. */
  ghost predicate InOrder(l: seq<Extent>) {
    && (forall i :: 0 <= i < |l| ==> l[i].size >= 1)
    && (forall i, j :: 0 <= i < j < |l| ==> l[i].addr + l[i].size <= l[j].addr)
  }

  /** The same for `cur` followed by `rest`. */
  ghost predicate Follows(cur: Extent, rest: seq<Extent>) {
    cur.size >= 1 && InOrder(rest) && forall i :: 0 <= i < |rest| ==> cur.addr + cur.size <= rest[i].addr
  }

  lemma {:induction false} CoalesceNormal(cur: Extent, rest: seq<Extent>)
    requires Follows(cur, rest)
    ensures Normal(CoalesceFrom(cur, rest))
    ensures CoalesceFrom(cur, rest) != [] && CoalesceFrom(cur, rest)[0].addr == cur.addr
    decreases |rest|
  {
    if rest != [] {
      if rest[0].addr == cur.addr + cur.size {
        CoalesceNormal(Extent(cur.addr, cur.size + rest[0].size), rest[1..]);
      } else {
        CoalesceNormal(rest[0], rest[1..]);
        PrependNormal(cur, CoalesceFrom(rest[0], rest[1..]));
      }
    }
  }

  lemma PrependNormal(cur: Extent, l: seq<Extent>)
    requires Normal(l) && l != [] && cur.size >= 1 && cur.addr + cur.size < l[0].addr
    ensures Normal([cur] + l)
  {
    var r := [cur] + l;
    forall i, j | 0 <= i < j < |r| ensures r[i].addr + r[i].size < r[j].addr {
      assert r[j] == l[j - 1];
      if i > 0 { assert r[i] == l[i - 1]; } else if j > 1 { assert l[0].addr + l[0].size < l[j - 1].addr; }
    }
  }

  /** A tiling's free list in address order does not overlap. */
  lemma SortedIsInOrder(l: seq<Extent>, alloc: map<int, int>, start: int, size: int)
    requires Tiles(multiset(l), alloc, start, size) && SortedBy(ADDRSORT, l)
    ensures InOrder(l)
  {
    forall i, j | 0 <= i < j < |l| ensures l[i].addr + l[i].size <= l[j].addr {
      assert l[i] in multiset(l) && l[j] in multiset(l);
      assert Key(ADDRSORT, l[i]) <= Key(ADDRSORT, l[j]);
      DistinctAt(l, i, j);
    }
    forall i | 0 <= i < |l| ensures l[i].size >= 1 { assert l[i] in multiset(l); }
  }

  lemma DistinctAt(l: seq<Extent>, i: nat, j: nat)
    requires i < j < |l| && multiset(l)[l[i]] == 1
    ensures l[i] != l[j]
  {
    assert l == l[..i] + [l[i]] + l[i + 1..];
    assert l[i + 1..][j - i - 1] == l[j];
    assert l[j] in multiset(l[i + 1..]);
  }

  // ---------- what the address-ordered, coalesced list guarantees ----------

  /** `n` bytes from `h` on, none of them allocated. */
  ghost predicate Hole(alloc: map<int, int>, start: int, size: int, h: int, n: int) {
    start <= h && h + n <= start + size && forall x :: h <= x < h + n ==> !InUse(alloc, x)
  }

  ghost predicate SomeFits(l: seq<Extent>, n: int) {
    exists i :: 0 <= i < |l| && l[i].size >= n
  }

  /** In a normal list a run of free bytes lies in one extent. */
  lemma {:induction false} HoleInOneExtent(l: seq<Extent>, alloc: map<int, int>, start: int, size: int, h: int,
      n: int) returns (i: nat)
    requires Tiles(multiset(l), alloc, start, size) && Normal(l) && Hole(alloc, start, size, h, n) && n >= 1
    ensures i < |l| && l[i].addr <= h && h + n <= l[i].addr + l[i].size
    decreases n
  {
    var x := h + n - 1;
    assert !InUse(alloc, x);
    var e :| e in multiset(l) && Has(e, x);
    i :| 0 <= i < |l| && l[i] == e;
    if n > 1 {
      assert Hole(alloc, start, size, h, n - 1);
      var j := HoleInOneExtent(l, alloc, start, size, h, n - 1);
      Neighbours(l, j, i, x);
    }
  }

  /** Adjacent free bytes belong to the same extent of a normal list. */
  lemma Neighbours(l: seq<Extent>, j: nat, i: nat, x: int)
    requires Normal(l) && i < |l| && j < |l| && Has(l[i], x) && Has(l[j], x - 1)
    ensures i == j
  {
  }

  lemma ExtentIsHole(l: seq<Extent>, alloc: map<int, int>, start: int, size: int, i: nat, n: int)
    requires Tiles(multiset(l), alloc, start, size) && i < |l| && l[i].size >= n
    ensures Hole(alloc, start, size, l[i].addr, n)
  {
    assert l[i] in multiset(l);
    assert forall a :: a in alloc ==> Apart(l[i], Extent(a, alloc[a]));
  }

  /** The list has an extent of `n` bytes exactly if the heap has a hole of `n` bytes between blocks. */
  lemma FitsIffHole(l: seq<Extent>, alloc: map<int, int>, start: int, size: int, n: int)
    requires Tiles(multiset(l), alloc, start, size) && Normal(l) && n >= 1
    ensures SomeFits(l, n) <==> exists h :: Hole(alloc, start, size, h, n)
  {
    if h :| Hole(alloc, start, size, h, n) {
      var i := HoleInOneExtent(l, alloc, start, size, h, n);
      assert l[i].size >= n;
    }
    if SomeFits(l, n) {
      var i :| 0 <= i < |l| && l[i].size >= n;
      ExtentIsHole(l, alloc, start, size, i, n);
    }
  }

  /** A hole that is not part of a larger one. */
  ghost predicate Gap(alloc: map<int, int>, start: int, size: int, h: int, n: int) {
    n >= 1 && Hole(alloc, start, size, h, n)
      && !Hole(alloc, start, size, h - 1, n + 1) && !Hole(alloc, start, size, h, n + 1)
  }

  /** The entries of a normal list are the gaps between the blocks. */
  lemma EntriesAreGaps(l: seq<Extent>, alloc: map<int, int>, start: int, size: int, h: int, n: int)
    requires Tiles(multiset(l), alloc, start, size) && Normal(l)
    ensures Extent(h, n) in l <==> Gap(alloc, start, size, h, n)
  {
    hide Tiles;
    if Gap(alloc, start, size, h, n) {
      var i := HoleInOneExtent(l, alloc, start, size, h, n);
      ExtentIsHole(l, alloc, start, size, i, l[i].size);
      assert l[i] == Extent(h, n);
    }
    if Extent(h, n) in l {
      var i :| 0 <= i < |l| && l[i] == Extent(h, n);
      ExtentIsHole(l, alloc, start, size, i, n);
      if Hole(alloc, start, size, h - 1, n + 1) { InNoLargerHole(l, alloc, start, size, i, h - 1, n + 1); }
      if Hole(alloc, start, size, h, n + 1) { InNoLargerHole(l, alloc, start, size, i, h, n + 1); }
    }
  }

  lemma InNoLargerHole(l: seq<Extent>, alloc: map<int, int>, start: int, size: int, i: nat, h: int, n: int)
    requires Tiles(multiset(l), alloc, start, size) && Normal(l) && i < |l| && Hole(alloc, start, size, h, n)
    requires h <= l[i].addr && l[i].addr + l[i].size <= h + n
    ensures l[i] == Extent(h, n)
  {
    hide Tiles;
    var j := HoleInOneExtent(l, alloc, start, size, h, n);
    assert i == j;
  }

  /** The gap a policy serves `n` bytes from: the first, the smallest or the largest of those that are large enough,
      and the first of several of that size. */
  ghost predicate Serves(policy: Policy, alloc: map<int, int>, start: int, size: int, n: int, addr: int) {
    exists g :: Gap(alloc, start, size, addr, g) && g >= n
      && forall h, k :: Gap(alloc, start, size, h, k) && k >= n ==>
        match policy
        case FIRST => addr <= h
        case BEST => g < k || (g == k && addr <= h)
        case WORST => g > k || (g == k && addr <= h)
  }

  /** First fit takes the lowest address at which `n` bytes are free. */
  lemma FirstFitIsLowest(alloc: map<int, int>, start: int, size: int, l: seq<Extent>, n: int, addr: int, h: int)
    requires Tiles(multiset(l), alloc, start, size) && Normal(l) && n >= 1
    requires Serves(FIRST, alloc, start, size, n, addr) && Hole(alloc, start, size, h, n)
    ensures addr <= h
  {
    hide Tiles;
    var i := HoleInOneExtent(l, alloc, start, size, h, n);
    EntriesAreGaps(l, alloc, start, size, l[i].addr, l[i].size);
  }

  /** With nothing allocated the list is the single initial extent again. */
  lemma NothingAllocated(l: seq<Extent>, start: int, size: int)
    requires Tiles(multiset(l), map[], start, size) && Normal(l) && size >= 1
    ensures l == [Extent(start, size)]
  {
    assert Hole(map[], start, size, start, size);
    var i := HoleInOneExtent(l, map[], start, size, start, size);
    assert l[i] in multiset(l) && l[i] == Extent(start, size);
    if |l| > 1 {
      var j := if i == 0 then 1 else 0;
      assert l[j] in multiset(l);
      WholeHeapAlone(l, start, size, i, j);
      assert false;
    }
  }

  lemma WholeHeapAlone(l: seq<Extent>, start: int, size: int, i: nat, j: nat)
    requires Normal(l) && i < |l| && j < |l| && l[i] == Extent(start, size) && Inside(l[j], start, size)
    ensures i == j
  {
  }

  lemma CarveKeepsNormal(l: seq<Extent>, i: nat, need: int)
    requires Normal(l) && i < |l| && 1 <= need < l[i].size
    ensures Normal(l[i := Extent(l[i].addr + need, l[i].size - need)])
  {
  }

  lemma RemoveKeepsNormal(l: seq<Extent>, i: nat)
    requires Normal(l) && i < |l|
    ensures Normal(l[..i] + l[i + 1..])
  {
  }

  lemma UpdateOne(l: seq<Extent>, i: nat, e: Extent)
    requires i < |l|
    ensures multiset(l[i := e]) == multiset(l) - multiset{l[i]} + multiset{e}
  {
  }

  lemma RemoveOne(l: seq<Extent>, i: nat)
    requires i < |l|
    ensures multiset(l[..i] + l[i + 1..]) == multiset(l) - multiset{l[i]}
  {
    assert l == l[..i] + [l[i]] + l[i + 1..];
  }

  lemma StartsInside(free: multiset<Extent>, alloc: map<int, int>, start: int, size: int, e: Extent)
    requires Tiles(free, alloc, start, size) && e in free
    ensures start <= e.addr
  {
  }

  /** Free with address order and coalescing gives a normal list. */
  lemma PlaceAndCoalesceIsNormal(l: seq<Extent>, e: Extent, alloc: map<int, int>, start: int, size: int)
    requires Tiles(multiset(l) + multiset{e}, alloc, start, size)
    ensures Normal(Coalesce(Place(ADDRSORT, l, e)))
  {
    PlaceIs(ADDRSORT, l, e);
    var p := Place(ADDRSORT, l, e);
    SortedIsInOrder(p, alloc, start, size);
    CoalesceNormal(p[0], p[1..]);
  }

  lemma CoalesceKeepsTiles(l: seq<Extent>, alloc: map<int, int>, start: int, size: int)
    requires Tiles(multiset(l), alloc, start, size)
    ensures Tiles(multiset(Coalesce(l)), alloc, start, size)
  {
    if l != [] {
      assert multiset([]) + multiset{l[0]} + multiset(l[1..]) == multiset(l) by { assert l == [l[0]] + l[1..]; }
      CoalesceTiles([], l[0], l[1..], alloc, start, size);
      assert multiset([]) + multiset(Coalesce(l)) == multiset(Coalesce(l));
    }
  }
}
