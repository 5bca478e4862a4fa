/** class malloc of vm-freespace/malloc.py: the free list and the size map updated in place. */
module Malloc {
  import opened Arithmetic
  import opened Heap

  class Allocator {
    const start: int
    const size: int
    const headerSize: int
    const policy: Policy
    const order: ListOrder
    const coalesce: bool
    const align: int

    var freelist: seq<Extent>
    var sizemap: map<int, int>

    /** Free and allocated extents tile the heap; and with address order and coalescing the free list
        is in address order with nothing left to merge. */
    ghost predicate Valid()
      reads this
    {
      && size >= 1 && headerSize >= 0 && start >= 0 && (align == -1 || align > 0)
      && Tiles(multiset(freelist), sizemap, start, size)
      && (order == ADDRSORT && coalesce ==> Normal(freelist))
    }

    constructor (size: int, start: int, headerSize: int, policy: Policy, order: ListOrder, coalesce: bool, align: int)
      requires size >= 1 && start >= 0 && headerSize >= 0 && (align == -1 || align > 0)
      ensures Valid() && this.start == start && this.size == size && this.headerSize == headerSize
      ensures this.policy == policy && this.order == order && this.coalesce == coalesce && this.align == align
      ensures freelist == [Extent(start, size)] && sizemap == map[]
    {
      this.size, this.start, this.headerSize := size, start, headerSize;
      this.policy, this.order, this.coalesce, this.align := policy, order, coalesce, align;
      freelist := [Extent(start, size)];
      sizemap := map[];
      new;
      assert multiset(freelist) == multiset{Extent(start, size)};
      assert forall x :: start <= x < start + size ==> Has(Extent(start, size), x);
      assert Extent(start, size) in multiset(freelist);
    }

    /** The bytes a request really takes: rounded up to the alignment, plus the header. */
    function Need(request: int): int
      requires align == -1 || align > 0
    {
      headerSize + if align == -1 || request % align == 0 then request else request + align - request % align
    }

    /** Without alignment a request takes its own size, with alignment the least multiple of it that is at least the
        request; the header comes on top. */
    lemma NeedIsLeast(request: int, m: int)
      requires align == -1 || align > 0
      ensures Need(request) - headerSize >= request
      ensures align == -1 ==> Need(request) - headerSize == request
      ensures align > 0 ==> (Need(request) - headerSize) % align == 0
      ensures align > 0 && m >= request && m % align == 0 ==> Need(request) - headerSize <= m
    {
      if align > 0 {
        var q, r, k := request / align, request % align, m / align;
        if r > 0 { DivModOf(Need(request) - headerSize, align, q + 1, 0); }
        if m >= request && m % align == 0 { NextMultiple(align, q, r, k); }
      }
    }

    lemma NextMultiple(align: int, q: int, r: int, k: int)
      requires align > 0 && 0 <= r < align && align * k >= align * q + r
      ensures align * k >= if r == 0 then align * q else align * q + align
    {
      if k < q { MulNonNegative(q - k - 1, align); }
      if k == q + 1 || k <= q { assert align * (q + 1) == align * q + align; }
      if k > q { MulNonNegative(k - q - 1, align); }
    }

    /** Is extent `i` the one the policy picks for `n` bytes? */
    ghost predicate Chosen(l: seq<Extent>, n: int, i: int) {
      && 0 <= i < |l| && l[i].size >= n
      && match policy
         case FIRST => forall j :: 0 <= j < i ==> l[j].size < n
         case BEST => forall j :: 0 <= j < |l| && l[j].size >= n ==>
           l[i].size <= l[j].size && (l[i].size == l[j].size ==> i <= j)
         case WORST => forall j :: 0 <= j < |l| && l[j].size >= n ==>
           l[i].size >= l[j].size && (l[i].size == l[j].size ==> i <= j)
    }

    /** The search loop (lines 62-80). */
    method Search(n: int) returns (bestIdx: int, count: nat)
      requires Valid() && n >= 1
      ensures bestIdx == -1 <==> !SomeFits(freelist, n)
      ensures bestIdx != -1 ==> Chosen(freelist, n, bestIdx)
      ensures count == if policy == FIRST && bestIdx != -1 then bestIdx + 1 else |freelist|
    {
      bestIdx, count := -1, 0;
      var bestSize := if policy == BEST then size + 1 else -1;
      for i := 0 to |freelist|
        invariant count == i
        invariant bestIdx == -1 ==> bestSize == if policy == BEST then size + 1 else -1
        invariant bestIdx == -1 ==> forall j :: 0 <= j < i ==> freelist[j].size < n
        invariant bestIdx != -1 ==> policy != FIRST && 0 <= bestIdx < i && bestSize == freelist[bestIdx].size >= n
        invariant bestIdx != -1 ==> forall j :: 0 <= j < i && freelist[j].size >= n ==>
          && (if policy == BEST then bestSize <= freelist[j].size else bestSize >= freelist[j].size)
          && (bestSize == freelist[j].size ==> bestIdx <= j)
      {
        var esize := freelist[i].size;
        assert freelist[i] in multiset(freelist);
        count := count + 1;
        if esize >= n
          && ((policy == BEST && esize < bestSize) || (policy == WORST && esize > bestSize) || policy == FIRST) {
          bestSize := esize;
          bestIdx := i;
          if policy == FIRST { return; }
        }
      }
    }

    /** Split or remove the chosen extent and record the block (lines 83-90). */
    method Take(i: nat, n: int) returns (addr: int)
      requires Valid() && i < |freelist| && 1 <= n <= freelist[i].size
      modifies this
      ensures Valid() && addr == old(freelist)[i].addr && addr >= 0
      ensures addr !in old(sizemap) && sizemap == old(sizemap)[addr := n]
      ensures freelist == Without(old(freelist), i, n)
    {
      hide Tiles, Normal, Carve;
      var e := freelist[i];
      assert e in multiset(freelist);
      StartsInside(multiset(freelist), sizemap, start, size, e);
      CarveTiles(multiset(freelist), sizemap, start, size, e, n);
      WithoutIs(freelist, i, n);
      if e.size > n {
        freelist := freelist[i := Extent(e.addr + n, e.size - n)];
      } else {
        freelist := freelist[..i] + freelist[i + 1..];
      }
      sizemap := sizemap[e.addr := n];
      return e.addr;
    }

    lemma WithoutIs(l: seq<Extent>, i: nat, n: int)
      requires i < |l| && 1 <= n <= l[i].size
      ensures multiset(Without(l, i, n)) == Carve(multiset(l), l[i], n)
      ensures Normal(l) ==> Normal(Without(l, i, n))
    {
      hide Normal;
      if l[i].size > n {
        UpdateOne(l, i, Extent(l[i].addr + n, l[i].size - n));
        if Normal(l) { CarveKeepsNormal(l, i, n); }
      } else {
        RemoveOne(l, i);
        if Normal(l) { RemoveKeepsNormal(l, i); }
      }
    }

    /** The entry the search stops at is the gap the policy asks for. */
    lemma ChosenServes(n: int, i: nat)
      requires Valid() && order == ADDRSORT && coalesce && Chosen(freelist, n, i) && n >= 1
      ensures Serves(policy, sizemap, start, size, n, freelist[i].addr)
    {
      hide Tiles, Gap;
      var l, addr, g := freelist, freelist[i].addr, freelist[i].size;
      EntriesAreGaps(l, sizemap, start, size, addr, g);
      assert Extent(addr, g) == l[i];
      forall h, k | Gap(sizemap, start, size, h, k) && k >= n
        ensures match policy
          case FIRST => addr <= h
          case BEST => g < k || (g == k && addr <= h)
          case WORST => g > k || (g == k && addr <= h)
      {
        EntriesAreGaps(l, sizemap, start, size, h, k);
        var j :| 0 <= j < |l| && l[j] == Extent(h, k);
        assert i < j ==> addr < h;
        assert j < i ==> h < addr;
      }
    }

    /** Returns the address, or -1, and the number of list elements looked at. */
    method Malloc(request: int) returns (addr: int, count: nat)
      requires Valid() && request >= 1
      modifies this
      ensures Valid()
      ensures addr == -1 <==> !SomeFits(old(freelist), Need(request))
      ensures addr == -1 ==> freelist == old(freelist) && sizemap == old(sizemap) && count == |old(freelist)|
      ensures addr != -1 ==> addr !in old(sizemap) && sizemap == old(sizemap)[addr := Need(request)]
      ensures addr != -1 ==> exists i :: Granted(old(freelist), Need(request), i, addr, count)
      ensures addr != -1 && order == ADDRSORT && coalesce ==>
        Serves(policy, old(sizemap), start, size, Need(request), addr)
    {
      hide Tiles, Normal, Serves, Without;
      var n := Need(request);
      var bestIdx;
      bestIdx, count := Search(n);
      if bestIdx == -1 {
        return -1, count;
      }
      if order == ADDRSORT && coalesce { ChosenServes(n, bestIdx); }
      addr := Take(bestIdx, n);
      assert Granted(old(freelist), n, bestIdx, addr, count);
    }

    /** The list after extent `i` has given up its first `n` bytes at `addr`. */
    ghost predicate Granted(l: seq<Extent>, n: int, i: int, addr: int, count: nat)
      reads `freelist
    {
      && Chosen(l, n, i) && addr == l[i].addr && count == (if policy == FIRST then i + 1 else |l|)
      && freelist == Without(l, i, n)
    }

    ghost function Without(l: seq<Extent>, i: nat, n: int): seq<Extent>
      requires i < |l|
    {
      if l[i].size > n then l[i := Extent(l[i].addr + n, l[i].size - n)] else l[..i] + l[i + 1..]
    }

    /** The coalescing loop (lines 119-130). */
    method CoalesceList(l: seq<Extent>) returns (newlist: seq<Extent>)
      requires l != []
      ensures newlist == Heap.Coalesce(l)
    {
      newlist := [];
      var curr := l[0];
      for i := 1 to |l|
        invariant newlist + CoalesceFrom(curr, l[i..]) == Heap.Coalesce(l)
      {
        assert l[i..][0] == l[i] && l[i..][1..] == l[i + 1..];
        if l[i].addr == curr.addr + curr.size {
          curr := Extent(curr.addr, curr.size + l[i].size);
        } else {
          newlist := newlist + [curr];
          curr := l[i];
        }
      }
      assert l[|l|..] == [];
      newlist := newlist + [curr];
    }

    /** The free list once `e` is back on it. */
    ghost function Returned(l: seq<Extent>, e: Extent): seq<Extent> {
      if coalesce then Heap.Coalesce(Place(order, l, e)) else Place(order, l, e)
    }

    method Free(addr: int) returns (rc: int)
      requires Valid()
      modifies this
      ensures Valid()
      ensures rc == if addr in old(sizemap) then 0 else -1
      ensures rc == -1 ==> freelist == old(freelist) && sizemap == old(sizemap)
      ensures rc == 0 ==> sizemap == old(sizemap) - {addr}
      ensures rc == 0 ==> freelist == Returned(old(freelist), Extent(addr, old(sizemap)[addr]))
      ensures rc == 0 && !coalesce ==> freelist == Place(order, old(freelist), Extent(addr, old(sizemap)[addr]))
      ensures rc == 0 && coalesce ==> NoneTouch(freelist)
    {
      if addr !in sizemap {
        return -1;
      }
      var e := Extent(addr, sizemap[addr]);
      ReleaseTiles(multiset(freelist), sizemap, start, size, addr);
      PlaceIs(order, freelist, e);
      if order == ADDRSORT && coalesce { PlaceAndCoalesceIsNormal(freelist, e, sizemap - {addr}, start, size); }
      freelist := Place(order, freelist, e);
      if coalesce {
        CoalesceKeepsTiles(freelist, sizemap - {addr}, start, size);
        CoalescedApart(freelist[0], freelist[1..]);
        freelist := CoalesceList(freelist);
      }
      sizemap := sizemap - {addr};
      return 0;
    }

    /** With address order and coalescing, malloc fails exactly when no hole between allocated blocks is
        as large as the aligned request plus header. */
    lemma FailsOnlyWithoutHole(request: int)
      requires Valid() && order == ADDRSORT && coalesce && request >= 1
      ensures SomeFits(freelist, Need(request)) <==> exists h :: Hole(sizemap, start, size, h, Need(request))
    {
      FitsIffHole(freelist, sizemap, start, size, Need(request));
    }

    /** With address order and coalescing, once everything is freed the list is the initial extent. */
    lemma AllFreedIsInitial()
      requires Valid() && order == ADDRSORT && coalesce && sizemap == map[]
      ensures freelist == [Extent(start, size)]
    {
      NothingAllocated(freelist, start, size);
    }
  }

  lemma EmptyOrNot(s: set<int>)
    ensures s == {} || exists a :: a in s
  {
    if forall a :: a !in s { assert s == {}; }
  }

  /** Free every block, in any order the caller likes to pick them. */
  method FreeAll(m: Allocator)
    requires m.Valid() && m.order == ADDRSORT && m.coalesce
    modifies m
    ensures m.Valid() && m.sizemap == map[] && m.freelist == [Extent(m.start, m.size)]
  {
    while m.sizemap.Keys != {}
      invariant m.Valid()
      decreases |m.sizemap|
    {
      var keys := m.sizemap.Keys;
      EmptyOrNot(keys);
      var addr :| addr in keys;
      ghost var before := m.sizemap;
      var _ := m.Free(addr);
      assert m.sizemap.Keys == before.Keys - {addr};
    }
    assert m.sizemap == map[];
    m.AllFreedIsInitial();
  }
}
