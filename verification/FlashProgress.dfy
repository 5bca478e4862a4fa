/** What a collection of the log-structured SSD gets done: which blocks it visits, and the garbage it leaves. */
module FlashProgress {
  import opened Arithmetic
  import opened Flash
  import opened FlashTheorems

  // ---------- the order ----------

  lemma WrapOnce(i: nat, start: nat, n: nat)
    requires i < n && start < n
    ensures (start + i) % n == if start + i < n then start + i else start + i - n
  {
    DivModOf(start + i, n, if start + i < n then 0 else 1, if start + i < n then start + i else start + i - n);
  }

  /** A collection goes once round all blocks, from where the last one stopped. */
  lemma OrderIsLap(f: Image)
    requires Sizes(f)
    ensures |Order(f)| == f.blocks
    ensures forall i: nat :: i < f.blocks ==> Order(f)[i] == (f.gcBlock + i) % f.blocks
  {
    forall i: nat | i < f.blocks ensures Order(f)[i] == (f.gcBlock + i) % f.blocks { WrapOnce(i, f.gcBlock, f.blocks); }
  }

  lemma EveryBlockVisited(f: Image, b: nat)
    requires Sizes(f) && b < f.blocks
    ensures b in Order(f)
  {
    var i := if b >= f.gcBlock then b - f.gcBlock else b + f.blocks - f.gcBlock;
    assert Order(f)[i] == b;
  }

  lemma {:induction false} FindFreeIsFirst(f: Image, lo: nat, hi: nat, c: nat)
    requires Sizes(f) && lo <= c < hi <= f.blocks && (FindFree(f, lo, hi) == -1 || c < FindFree(f, lo, hi))
    ensures Head(f, c) == VALID
    decreases hi - lo
  {
    if lo < c { FindFreeIsFirst(f, lo + 1, hi, c); }
  }

  /** The `i`-th block going round from the current one. */
  ghost function Ahead(f: Image, i: nat): (b: nat)
    requires Sizes(f) && i < f.blocks
    ensures b < f.blocks
  {
    WrapOnce(i, f.block, f.blocks);
    (f.block + i) % f.blocks
  }

  /** The block opened next is the first one not programmed, going round from the current one. */
  lemma NextFreeIsNext(f: Image) returns (i: nat)
    requires Sizes(f)
    ensures NextFree(f) == -1 ==> forall b :: 0 <= b < f.blocks ==> Head(f, b) == VALID
    ensures NextFree(f) != -1 ==> i < f.blocks && NextFree(f) == Ahead(f, i) && Head(f, Ahead(f, i)) != VALID
    ensures NextFree(f) != -1 ==> forall k: nat :: k < i ==> Head(f, Ahead(f, k)) == VALID
  {
    hide FindFree;
    NextFreeIs(f);
    i := 0;
    var b, n := NextFree(f), f.blocks;
    if b != -1 {
      i := if FindFree(f, f.block, n) != -1 then b - f.block else b + n - f.block;
      WrapOnce(i, f.block, n);
      forall k: nat | k < i ensures Head(f, Ahead(f, k)) == VALID { PassedOver(f, k, i); }
    }
  }

  lemma PassedOver(f: Image, k: nat, i: nat)
    requires Sizes(f) && k < i < f.blocks && NextFree(f) != -1
    requires i == NextFree(f) - f.block + if FindFree(f, f.block, f.blocks) != -1 then 0 else f.blocks
    ensures Head(f, Ahead(f, k)) == VALID
  {
    hide FindFree;
    WrapOnce(k, f.block, f.blocks);
    if f.block + k < f.blocks {
      FindFreeIsFirst(f, f.block, f.blocks, f.block + k);
    } else {
      FindFreeIsFirst(f, 0, f.block, f.block + k - f.blocks);
    }
  }

  // ---------- garbage ----------

  /** Every programmed page of the block is live. */
  ghost predicate Tidy(f: Image, b: nat)
    requires Sizes(f)
  {
    forall p: nat :: p < |f.state| && InBlock(f.ppb, b, p) && f.state[p] == VALID ==> IsLive(f, p)
  }

  /** Moving a live page out of another block makes no garbage here, and leaves other live pages live. */
  lemma WriteKeepsLive(f: Image, pg: nat, r: nat)
    requires Shape(f) && pg < |f.state| && IsLive(f, pg) && r < |f.state| && r != pg
    requires 0 <= f.reverse[pg] < |f.forward| && |f.data| == |f.state|
    ensures var g := WriteLog(f, f.reverse[pg], f.data[pg]);
      && (f.state[r] == VALID && IsLive(f, r) ==> IsLive(g, r))
      && (g.state[r] == VALID && f.state[r] != VALID ==> IsLive(g, r))
  {
    if !Full(f) {
      assert ReverseOk(f, r);
      var q := WriteIs(f, f.reverse[pg], f.data[pg]);
    }
  }

  lemma WriteKeepsTidy(f: Image, pg: nat, b: nat)
    requires Shape(f) && pg < |f.state| && IsLive(f, pg) && !InBlock(f.ppb, b, pg) && Tidy(f, b)
    requires 0 <= f.reverse[pg] < |f.forward| && |f.data| == |f.state|
    ensures Tidy(WriteLog(f, f.reverse[pg], f.data[pg]), b)
  {
    hide IsLive;
    var g := WriteLog(f, f.reverse[pg], f.data[pg]);
    forall p: nat | p < |g.state| && InBlock(g.ppb, b, p) && g.state[p] == VALID ensures IsLive(g, p) {
      WriteKeepsLive(f, pg, p);
    }
  }

  lemma {:induction false} CopyKeepsTidy(f: Image, c: nat, pages: seq<nat>, b: nat)
    requires Shape(f) && c < f.blocks && Closed(f, c) && PagesOf(f, c, pages) && Copyable(f, pages) && c != b
    requires Tidy(f, b)
    ensures Tidy(CopyLive(f, pages), b)
    decreases |pages|
  {
    if pages != [] {
      var pg := pages[0];
      assert IsLive(f, pg) && ReverseOk(f, pg);
      var a, d := f.reverse[pg], f.data[pg];
      var g := WriteLog(f, a, d);
      if InBlock(f.ppb, b, pg) { OneBlock(f.ppb, b, c, pg); }
      WriteKeepsTidy(f, pg, b);
      WriteKeepsClosed(f, a, d, c);
      WriteKeepsCopyable(f, a, d, pages[1..]);
      RestListed(f, c, pages);
      CopyKeepsTidy(g, c, pages[1..], b);
    }
  }

  lemma RestListed(f: Image, c: nat, pages: seq<nat>)
    requires Shape(f) && c < f.blocks && Closed(f, c) && PagesOf(f, c, pages) && pages != []
    requires 0 <= f.reverse[pages[0]] < |f.forward| && |f.data| == |f.state|
    ensures PagesOf(WriteLog(f, f.reverse[pages[0]], f.data[pages[0]]), c, pages[1..])
  {
    hide IsLive;
    ClosedIsProgrammed(f, c);
    forall i | 0 <= i < |pages[1..]|
      ensures IsLive(WriteLog(f, f.reverse[pages[0]], f.data[pages[0]]), pages[1..][i])
    {
      WriteKeepsLive(f, pages[0], pages[i + 1]);
    }
  }

  lemma EraseKeepsTidy(f: Image, c: nat, b: nat)
    requires Shape(f) && c < f.blocks && Shape(Erase(f, c)) && (c == b || Tidy(f, b))
    ensures Tidy(Erase(f, c), b)
  {
  }

  lemma CollectKeepsTidy(f: Image, c: nat, b: nat)
    requires Shape(f) && c < f.blocks && !Skips(f, c) && (c == b || Tidy(f, b))
    ensures Tidy(Collect(f, c), b)
  {
    hide Sizes, Uniform, UsedOk, ReverseOk, Erase, IsLive, Tidy;
    LiveIs(f, c);
    CollectShape(f, c);
    if c != b {
      if Head(f, c) == VALID { CopyKeepsTidy(f, c, Live(f, c), b); } else { NothingHere(f, c); }
    }
    EraseKeepsTidy(CopyLive(f, Live(f, c)), c, b);
  }

  lemma CollectKeepsClosed(f: Image, c: nat, b: nat)
    requires Shape(f) && c < f.blocks && b < f.blocks && !Skips(f, c) && c != b && Closed(f, b)
    ensures Closed(Collect(f, c), b)
  {
    hide Uniform, UsedOk, ReverseOk;
    LiveIsCopyable(f, c);
    CollectShape(f, c);
    CopyKeepsClosed(f, Live(f, c), b);
    ErasedElsewhere(CopyLive(f, Live(f, c)), c, b);
  }

  lemma ErasedElsewhere(f: Image, c: nat, b: nat)
    requires Sizes(f) && c < f.blocks && b < f.blocks && c != b && Closed(f, b) && Sizes(Erase(f, c))
    ensures Closed(Erase(f, c), b)
  {
    FirstInRange(f, b);
    assert InBlock(f.ppb, b, First(f.ppb, b));
    if InBlock(f.ppb, c, First(f.ppb, b)) { OneBlock(f.ppb, b, c, First(f.ppb, b)); }
  }

  lemma MarkKeepsTidy(f: Image, m: nat, b: nat)
    requires Shape(f) && m < f.blocks && Shape(f.(gcBlock := m, gcCount := f.gcCount + 1)) && Tidy(f, b)
    ensures Tidy(f.(gcBlock := m, gcCount := f.gcCount + 1), b)
  {
  }

  lemma {:induction false} GcKeepsTidy(f: Image, order: seq<nat>, low: int, b: nat)
    requires Shape(f) && (forall i :: 0 <= i < |order| ==> order[i] < f.blocks) && Tidy(f, b)
    ensures Tidy(Gc(f, order, low), b)
    decreases |order|
  {
    hide Sizes, Uniform, UsedOk, ReverseOk, Tidy, Collect, BlocksInUse, Live;
    if order != [] {
      if Skips(f, order[0]) {
        GcKeepsTidy(f, order[1..], low, b);
      } else {
        CollectKeepsTidy(f, order[0], b);
        var g := Collect(f, order[0]);
        MarkShape(g, order[0]);
        MarkKeepsTidy(g, order[0], b);
        GcKeepsTidy(g, order[1..], low, b);
      }
    }
  }

  /** A closed block that is skipped has nothing but live pages. */
  lemma SkippedIsTidy(f: Image, b: nat)
    requires Shape(f) && b < f.blocks && Closed(f, b) && Skips(f, b)
    ensures Tidy(f, b)
  {
    hide UsedOk, ReverseOk, IsLive;
    LiveIs(f, b);
    FirstInRange(f, b);
    AllListed(f, b, First(f.ppb, b), First(f.ppb, b) + f.ppb);
  }

  lemma {:induction false} AllListed(f: Image, b: nat, lo: nat, hi: nat)
    requires Sizes(f) && b < f.blocks && First(f.ppb, b) <= lo <= hi <= First(f.ppb, b) + f.ppb && hi <= |f.state|
    requires |LiveFrom(f, lo, hi)| == hi - lo
    ensures forall p: nat :: lo <= p < hi ==> IsLive(f, p)
    decreases hi - lo
  {
    hide IsLive;
    if lo < hi {
      LiveFromIs(f, b, lo + 1, hi);
      AllListed(f, b, lo + 1, hi);
    }
  }

  /** A closed block still to be visited is without garbage in the end, unless the collection stops before it. */
  lemma {:induction false} GcTidies(f: Image, order: seq<nat>, low: int, b: nat)
    requires Shape(f) && (forall i :: 0 <= i < |order| ==> order[i] < f.blocks) && b < f.blocks
    requires b in order && Closed(f, b) && BlocksInUse(Gc(f, order, low)) > low
    ensures Tidy(Gc(f, order, low), b)
    decreases |order|
  {
    hide Sizes, Uniform, UsedOk, ReverseOk, Tidy, Collect, Live;
    var c := order[0];
    if c == b {
      if Skips(f, b) {
        SkippedIsTidy(f, b);
        GcKeepsTidy(f, order[1..], low, b);
      } else {
        CollectKeepsTidy(f, b, b);
        GcKeepsTidy(Collect(f, b), order[1..], low, b);
      }
    } else {
      assert b in order[1..] by { assert order == [c] + order[1..]; }
      if Skips(f, c) {
        GcTidies(f, order[1..], low, b);
      } else {
        CollectKeepsClosed(f, c, b);
        var g := Collect(f, c);
        if BlocksInUse(g) > low {
          GcTidies(g, order[1..], low, b);
        } else {
          MarkShape(g, c);
        }
      }
    }
  }

  lemma OpenOrClosed(f: Image, b: nat)
    requires Shape(f) && b < f.blocks && b != f.block
    ensures Closed(f, b) || Tidy(f, b)
  {
    assert Uniform(f, b);
  }

  /** Progress: a collection that ends above the low-water mark has left no garbage, no programmed page that is not
      live, outside the block that was current when it began. */
  lemma NoGarbageLeft(f: Image, low: int, p: nat)
    requires Shape(f) && BlocksInUse(GcAll(f, low)) > low
    requires p < |GcAll(f, low).state| && !InBlock(f.ppb, f.block, p)
    requires GcAll(f, low).state[p] == VALID
    ensures IsLive(GcAll(f, low), p)
  {
    hide Uniform, UsedOk, ReverseOk, Gc, IsLive;
    var g := GcAll(f, low);
    var b := SomeBlock(g.ppb, g.blocks, p);
    EveryBlockVisited(f, b);
    OpenOrClosed(f, b);
    if Closed(f, b) { GcTidies(f, Order(f), low, b); } else { GcKeepsTidy(f, Order(f), low, b); }
    assert Tidy(g, b);
  }

  lemma WriteKeepsKnown(f: Image, a: nat, d: char, p: nat)
    requires Shape(f) && a < |f.forward| && p < |f.state| && f.state[p] != INVALID
    ensures WriteLog(f, a, d).state[p] != INVALID
  {
    if !Full(f) { FirstInRange(f, f.block); }
  }

  lemma {:induction false} CopyKeepsKnown(f: Image, pages: seq<nat>, p: nat)
    requires Shape(f) && Copyable(f, pages) && p < |f.state| && f.state[p] != INVALID
    ensures CopyLive(f, pages).state[p] != INVALID
    decreases |pages|
  {
    hide WriteLog, Uniform, UsedOk;
    if pages != [] {
      assert ReverseOk(f, pages[0]) && |f.data| == |f.state|;
      var a, d := f.reverse[pages[0]], f.data[pages[0]];
      WriteKeepsKnown(f, a, d, p);
      WriteKeepsCopyable(f, a, d, pages[1..]);
      CopyKeepsKnown(WriteLog(f, a, d), pages[1..], p);
    }
  }

  lemma CollectKeepsKnown(f: Image, b: nat, p: nat)
    requires Shape(f) && b < f.blocks && !Skips(f, b) && p < |f.state| && f.state[p] != INVALID
    ensures Collect(f, b).state[p] != INVALID
  {
    hide Uniform, UsedOk, ReverseOk, CopyLive, Live;
    LiveIsCopyable(f, b);
    CopyKeepsKnown(f, Live(f, b), p);
  }

  lemma {:induction false} GcKeepsKnown(f: Image, order: seq<nat>, low: int, p: nat)
    requires Shape(f) && (forall i :: 0 <= i < |order| ==> order[i] < f.blocks)
    requires p < |f.state| && f.state[p] != INVALID
    ensures p < |Gc(f, order, low).state| && Gc(f, order, low).state[p] != INVALID
    decreases |order|
  {
    hide Uniform, UsedOk, ReverseOk, Collect, BlocksInUse, Live;
    if order != [] {
      if Skips(f, order[0]) {
        GcKeepsKnown(f, order[1..], low, p);
      } else {
        CollectKeepsKnown(f, order[0], p);
        GcKeepsKnown(Collect(f, order[0]), order[1..], low, p);
      }
    }
  }

  /** In particular such a collection has erased every programmed block without a live page other than the one that was
      current: what its pages hold now, if anything, is live. */
  lemma DeadBlocksErased(f: Image, low: int, b: nat, p: nat)
    requires Shape(f) && BlocksInUse(GcAll(f, low)) > low
    requires b < f.blocks && b != f.block && Head(f, b) == VALID && Live(f, b) == []
    requires p < |f.state| && InBlock(f.ppb, b, p)
    ensures !IsLive(f, p)
    ensures p < |GcAll(f, low).state| && (GcAll(f, low).state[p] == ERASED || IsLive(GcAll(f, low), p))
  {
    hide Gc, ReverseOk, UsedOk, IsLive;
    assert Uniform(f, b);
    LiveIs(f, b);
    if IsLive(f, p) { LiveListed(f, b, p); }
    GcKeepsKnown(f, Order(f), low, p);
    assert !InBlock(f.ppb, f.block, p) by { if InBlock(f.ppb, f.block, p) { OneBlock(f.ppb, b, f.block, p); } }
    if GcAll(f, low).state[p] == VALID { NoGarbageLeft(f, low, p); }
  }

  lemma LiveListed(f: Image, b: nat, p: nat)
    requires Sizes(f) && b < f.blocks && p < |f.state| && InBlock(f.ppb, b, p) && IsLive(f, p)
    ensures Live(f, b) != []
  {
    hide IsLive;
    FirstInRange(f, b);
    SomeListed(f, First(f.ppb, b), First(f.ppb, b) + f.ppb, p);
  }

  lemma {:induction false} SomeListed(f: Image, lo: nat, hi: nat, p: nat)
    requires Sizes(f) && lo <= p < hi <= |f.state| && IsLive(f, p)
    ensures LiveFrom(f, lo, hi) != []
    decreases hi - lo
  {
    hide IsLive;
    if lo < p { SomeListed(f, lo + 1, hi, p); }
  }

  /** A collection that stops early is at or below the low-water mark, just after erasing the block it will next start
      from; one that does not leaves that place alone, and has cleaned nothing or ends above the mark. */
  lemma {:induction false} GcStops(f: Image, order: seq<nat>, low: int)
    requires Shape(f) && (forall i :: 0 <= i < |order| ==> order[i] < f.blocks)
    ensures var g := Gc(f, order, low);
      || (g.gcCount == f.gcCount && g.gcBlock == f.gcBlock && (g == f || BlocksInUse(g) > low))
      || (g.gcCount == f.gcCount + 1 && g.gcBlock in order && BlocksInUse(g) <= low && Head(g, g.gcBlock) == ERASED)
    decreases |order|
  {
    hide Uniform, UsedOk, ReverseOk, Collect, BlocksInUse, Live;
    if order != [] {
      var c := order[0];
      if Skips(f, c) {
        GcStops(f, order[1..], low);
      } else {
        var g := Collect(f, c);
        if BlocksInUse(g) <= low { StopsAt(f, c); } else { GcStops(g, order[1..], low); }
      }
    }
  }

  lemma StopsAt(f: Image, c: nat)
    requires Shape(f) && c < f.blocks && !Skips(f, c)
    ensures var g := Collect(f, c);
      Head(g, c) == ERASED && Shape(g.(gcBlock := c, gcCount := g.gcCount + 1))
      && BlocksInUse(g.(gcBlock := c, gcCount := g.gcCount + 1)) == BlocksInUse(g)
  {
    hide Uniform, UsedOk, ReverseOk, Live, CopyLive;
    LiveIsCopyable(f, c);
    var g := Collect(f, c);
    MarkShape(g, c);
    FirstInRange(g, c);
    assert InBlock(g.ppb, c, First(g.ppb, c));
  }

  /** A collection that finds only erased blocks and blocks that are live throughout, other than the current one, does
      nothing at all: the current block is passed over, garbage or not. */
  lemma {:induction false} GcIdle(f: Image, order: seq<nat>, low: int)
    requires Shape(f) && (forall i :: 0 <= i < |order| ==> order[i] < f.blocks)
    requires forall b: nat :: b < f.blocks && b != f.block ==> Head(f, b) == ERASED || |Live(f, b)| == f.ppb
    ensures Gc(f, order, low) == f
    decreases |order|
  {
    hide Sizes, Uniform, UsedOk, Collect, Live;
    if order != [] { GcIdle(f, order[1..], low); }
  }

  // ---------- where the live pages go ----------

  /** `g` is `f` with the listed pages copied to the cursor and the pages behind it, in their order. */
  ghost predicate CopiedTo(f: Image, g: Image, pages: seq<nat>, at: nat)
    requires Sizes(f) && Sizes(g) && Copyable(f, pages) && |g.forward| == |f.forward|
    requires |g.state| == |f.state| == |f.data| == |g.data| && at + |pages| <= |f.state|
  {
    && (forall i :: 0 <= i < |pages| ==>
         var a := f.reverse[pages[i]];
         0 <= a < |f.forward| && g.forward[a] == at + i && g.data[at + i] == f.data[pages[i]])
    && (forall a :: 0 <= a < |f.forward| && (forall i :: 0 <= i < |pages| ==> f.reverse[pages[i]] != a) ==>
         g.forward[a] == f.forward[a])
    && (forall p :: 0 <= p < |f.state| && !(at <= p < at + |pages|) ==> g.data[p] == f.data[p])
  }

  lemma CopiedOne(f: Image, g: Image, h: Image, pages: seq<nat>)
    requires Sizes(f) && Sizes(g) && Sizes(h) && pages != [] && Copyable(f, pages) && Copyable(g, pages[1..])
    requires |h.forward| == |g.forward| == |f.forward| && |h.state| == |g.state| == |f.state|
    requires |h.data| == |g.data| == |f.data| == |f.state|
    requires 0 <= f.page && f.page + |pages| <= |f.state| && CopiedTo(g, h, pages[1..], f.page + 1)
    requires forall i :: 0 <= i < |pages| ==> IsLive(f, pages[i])
    requires forall i, j :: 0 <= i < j < |pages| ==> pages[i] < pages[j]
    requires var a := f.reverse[pages[0]];
      0 <= a < |f.forward| && g.forward == f.forward[a := f.page] && g.data == f.data[f.page := f.data[pages[0]]]
    requires forall i :: 0 <= i < |pages| ==> pages[i] != f.page && g.reverse[pages[i]] == f.reverse[pages[i]]
    ensures CopiedTo(f, h, pages, f.page)
  {
    var rest := pages[1..];
    forall i | 0 <= i < |pages|
      ensures var a := f.reverse[pages[i]];
        0 <= a < |f.forward| && h.forward[a] == f.page + i && h.data[f.page + i] == f.data[pages[i]]
    {
      Reversed(f, pages[i]);
      if i > 0 {
        assert rest[i - 1] == pages[i];
      } else {
        forall k | 0 <= k < |rest| ensures g.reverse[rest[k]] != f.reverse[pages[0]] {
          assert rest[k] == pages[k + 1] && IsLive(f, pages[k + 1]) && IsLive(f, pages[0]);
        }
      }
    }
    forall a | 0 <= a < |f.forward| && (forall i :: 0 <= i < |pages| ==> f.reverse[pages[i]] != a)
      ensures h.forward[a] == f.forward[a]
    {
      assert f.reverse[pages[0]] != a;
      forall k | 0 <= k < |rest| ensures g.reverse[rest[k]] != a { assert rest[k] == pages[k + 1]; }
    }
  }

  /** Live pages moved out of a block go to the pages behind the cursor, in address order, as long as these last. */
  lemma {:induction false} CopiedInOrder(f: Image, b: nat, pages: seq<nat>)
    requires Shape(f) && b < f.blocks && Closed(f, b) && PagesOf(f, b, pages) && Copyable(f, pages)
    requires 0 <= f.page && f.page + |pages| <= First(f.ppb, f.block) + f.ppb
    ensures f.page + |pages| <= |f.state| && CopiedTo(f, CopyLive(f, pages), pages, f.page)
    decreases |pages|
  {
    hide Uniform, UsedOk, IsLive, CopiedTo, ReverseOk, Closed, WriteLog;
    FirstInRange(f, f.block);
    if pages == [] {
      NoneCopied(f);
    } else {
      var pg := pages[0];
      Reversed(f, pg);
      var a, d := f.reverse[pg], f.data[pg];
      var g := WriteLog(f, a, d);
      Written(f, a, d);
      WriteKeepsClosed(f, a, d, b);
      WriteKeepsCopyable(f, a, d, pages[1..]);
      RestListed(f, b, pages);
      OffTheCursor(f, b);
      if |pages| > 1 {
        CopiedInOrder(g, b, pages[1..]);
      } else {
        NoneCopiedAt(g, f.page + 1);
      }
      CopiedOne(f, g, CopyLive(f, pages), pages);
    }
  }

  /** A write with the cursor open. */
  lemma Written(f: Image, a: nat, d: char)
    requires Shape(f) && f.page != -1 && a < |f.forward|
    ensures |f.data| == |f.state| == |f.reverse| && 0 <= f.page < |f.state|
    ensures var g := WriteLog(f, a, d);
      && g.forward == f.forward[a := f.page] && g.data == f.data[f.page := d] && g.reverse == f.reverse[f.page := a]
      && g.block == f.block && g.blocks == f.blocks && g.ppb == f.ppb
      && (f.page + 1 < First(f.ppb, f.block) + f.ppb ==> g.page == f.page + 1)
  {
    hide Uniform, UsedOk, ReverseOk;
    FirstInRange(f, f.block);
  }

  lemma Reversed(f: Image, p: nat)
    requires Sizes(f) && p < |f.state| && IsLive(f, p)
    ensures 0 <= f.reverse[p] < |f.forward|
  {
    assert ReverseOk(f, p);
  }

  lemma NoneCopied(f: Image)
    requires Shape(f) && 0 <= f.page <= |f.state|
    ensures CopiedTo(f, CopyLive(f, []), [], f.page)
  {
  }

  lemma NoneCopiedAt(g: Image, at: nat)
    requires Shape(g) && at <= |g.state|
    ensures CopiedTo(g, CopyLive(g, []), [], at)
  {
  }

  /** The cursor is in no closed block. */
  lemma OffTheCursor(f: Image, b: nat)
    requires Shape(f) && b < f.blocks && Closed(f, b) && f.page != -1
    ensures forall p :: InBlock(f.ppb, b, p) ==> p != f.page
  {
    hide Uniform, UsedOk, ReverseOk;
    if InBlock(f.ppb, b, f.page) { OneBlock(f.ppb, b, f.block, f.page); }
  }

  // ---------- upkeep ----------

  /** The blocks that hold something, or are being written. */
  ghost function InUse(f: Image): set<nat>
    requires Sizes(f)
  {
    set b: nat | b < f.blocks && (Head(f, b) == VALID || IsOpen(f, b))
  }

  lemma {:induction false} SumCounts(s: seq<int>, on: set<nat>)
    requires forall i: nat :: i < |s| ==> s[i] == if i in on then 1 else 0
    requires forall i :: i in on ==> i < |s|
    ensures Sum(s) == |on|
  {
    if s != [] {
      var n := |s| - 1;
      SumCounts(s[..n], on - {n});
      if n !in on { assert on - {n} == on; }
    } else {
      assert on == {};
    }
  }

  lemma BlocksInUseIs(f: Image)
    requires Shape(f)
    ensures BlocksInUse(f) == |InUse(f)|
  {
    hide Uniform, ReverseOk;
    forall b: nat | b < f.blocks ensures f.used[b] == if b in InUse(f) then 1 else 0 { assert UsedOk(f, b); }
    SumCounts(f.used, InUse(f));
  }

  /** Below the high-water mark upkeep does nothing. From it on, it gets to the low-water mark, or leaves no garbage
      outside the block that was current. */
  lemma UpkeepDone(f: Image, high: int, low: int)
    requires Shape(f)
    ensures |InUse(f)| < high ==> Upkeep(f, high, low) == f
    ensures |InUse(f)| >= high ==> var g := Upkeep(f, high, low);
      || |InUse(g)| <= low
      || forall p: nat :: p < |g.state| && g.state[p] == VALID && !InBlock(f.ppb, f.block, p) ==> IsLive(g, p)
  {
    hide Uniform, UsedOk, ReverseOk, IsLive, GcAll;
    BlocksInUseIs(f);
    var g := Upkeep(f, high, low);
    BlocksInUseIs(g);
    if |InUse(f)| >= high && |InUse(g)| > low {
      forall p: nat | p < |g.state| && g.state[p] == VALID && !InBlock(f.ppb, f.block, p) ensures IsLive(g, p) {
        NoGarbageLeft(f, low, p);
      }
    }
  }
}
