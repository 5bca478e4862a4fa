/** Values and operations of the log-structured SSD of file-ssd/ssd.py, as functions on a flash image.
    The class in Ssd.dfy updates its fields in place and is proved to compute these functions. */
module Flash {

  datatype PageState = INVALID | ERASED | VALID

  /** Everything the simulator keeps about the device, apart from its operation counters.
      Physical page `i` of block `b` has address b * ppb + i. */
  datatype Image = Image(
    blocks: nat, ppb: nat,
    state: seq<PageState>, data: seq<char>,
    forward: seq<int>, reverse: seq<int>,
    page: int, block: int,
    used: seq<int>, gcBlock: int, gcCount: nat, writeFails: nat)

  /** First page address of block `b`: b * ppb, built by repeated addition. */
  ghost function First(ppb: nat, b: nat): nat {
    if b == 0 then 0 else First(ppb, b - 1) + ppb
  }

  lemma {:induction false} FirstIsProduct(ppb: nat, b: nat)
    ensures First(ppb, b) == b * ppb
  {
    if b > 0 { FirstIsProduct(ppb, b - 1); }
  }

  lemma {:induction false} FirstMonotone(ppb: nat, b: nat, c: nat)
    requires b < c
    ensures First(ppb, b) + ppb <= First(ppb, c)
  {
    if b < c - 1 { FirstMonotone(ppb, b, c - 1); }
  }

  ghost predicate InBlock(ppb: nat, b: nat, p: int) {
    First(ppb, b) <= p < First(ppb, b) + ppb
  }

  lemma OneBlock(ppb: nat, b: nat, c: nat, p: int)
    requires InBlock(ppb, b, p) && InBlock(ppb, c, p)
    ensures b == c
  {
    if b < c { FirstMonotone(ppb, b, c); } else if c < b { FirstMonotone(ppb, c, b); }
  }

  lemma {:induction false} SomeBlock(ppb: nat, blocks: nat, p: nat) returns (b: nat)
    requires p < First(ppb, blocks)
    ensures b < blocks && InBlock(ppb, b, p)
  {
    if p >= First(ppb, blocks - 1) { b := blocks - 1; } else { b := SomeBlock(ppb, blocks - 1, p); }
  }

  // ---------- what a device looks like ----------

  ghost predicate Sizes(f: Image) {
    && f.ppb >= 1 && f.blocks >= 1
    && |f.state| == |f.data| == |f.reverse| == First(f.ppb, f.blocks)
    && |f.used| == f.blocks
    && 0 <= f.block < f.blocks && 0 <= f.gcBlock < f.blocks
    && (f.page != -1 ==> InBlock(f.ppb, f.block, f.page))
    && (forall a :: 0 <= a < |f.forward| ==> -1 <= f.forward[a] < |f.state|)
    && (forall p :: 0 <= p < |f.state| ==> ReverseOk(f, p))
  }

  /** A programmed page knows its logical page; a page never written has none. */
  ghost predicate ReverseOk(f: Image, p: int)
    requires 0 <= p < |f.state| == |f.reverse|
  {
    && -1 <= f.reverse[p] < |f.forward|
    && (f.state[p] == VALID ==> f.reverse[p] != -1)
    && (f.state[p] == INVALID ==> f.reverse[p] == -1)
  }

  lemma FirstInRange(f: Image, b: nat)
    requires Sizes(f) && b < f.blocks
    ensures First(f.ppb, b) + f.ppb <= |f.state|
  {
    FirstMonotone(f.ppb, b, f.blocks);
  }

  /** The state of a block's first page, which is what the simulator looks at. */
  ghost function Head(f: Image, b: nat): PageState
    requires Sizes(f) && b < f.blocks
  {
    FirstInRange(f, b);
    f.state[First(f.ppb, b)]
  }

  ghost predicate IsOpen(f: Image, b: nat) {
    f.page != -1 && b == f.block
  }

  /** A block's pages are all alike, except in the open block: programmed up to the cursor, erased after. */
  ghost predicate Uniform(f: Image, b: nat)
    requires Sizes(f) && b < f.blocks
  {
    forall p :: InBlock(f.ppb, b, p) && 0 <= p < |f.state| ==>
      f.state[p] == if !IsOpen(f, b) then Head(f, b) else if p < f.page then VALID else ERASED
  }

  ghost predicate UsedOk(f: Image, b: nat)
    requires Sizes(f) && b < f.blocks
  {
    f.used[b] == if Head(f, b) == VALID || IsOpen(f, b) then 1 else 0
  }

  /** What every reachable device looks like, whether or not it has lost data. */
  ghost predicate Shape(f: Image) {
    && Sizes(f)
    && (forall b :: 0 <= b < f.blocks ==> Uniform(f, b))
    && (forall b :: 0 <= b < f.blocks ==> UsedOk(f, b))
  }

  /** A mapped logical page points at a programmed page that points back. */
  ghost predicate Sound(f: Image, a: int)
    requires Sizes(f) && 0 <= a < |f.forward|
  {
    f.forward[a] == -1 || (f.state[f.forward[a]] == VALID && f.reverse[f.forward[a]] == a)
  }

  ghost predicate Mapped(f: Image)
    requires Sizes(f)
  {
    forall a :: 0 <= a < |f.forward| ==> Sound(f, a)
  }

  /** What the device stores: the value behind every mapped logical page. */
  ghost function Contents(f: Image): map<int, char>
    requires Sizes(f)
  {
    map a | 0 <= a < |f.forward| && f.forward[a] != -1 :: f.data[f.forward[a]]
  }

  /** Pages that can still be programmed without another collection. */
  ghost function Writable(state: seq<PageState>): nat {
    if state == [] then 0
    else Writable(state[..|state| - 1]) + (if state[|state| - 1] == VALID then 0 else 1)
  }

  // ---------- the operations ----------

  /** physical_erase */
  ghost function Erase(f: Image, b: nat): Image
    requires Sizes(f) && b < f.blocks
  {
    f.(state := seq(|f.state|, p requires 0 <= p < |f.state| => if InBlock(f.ppb, b, p) then ERASED else f.state[p]),
       data := seq(|f.data|, p requires 0 <= p < |f.data| => if InBlock(f.ppb, b, p) then ' ' else f.data[p]),
       used := f.used[b := 0])
  }

  /** is_block_free, when it says yes */
  ghost function Open(f: Image, b: nat): Image
    requires Sizes(f) && b < f.blocks
  {
    var g := if Head(f, b) == INVALID then Erase(f, b) else f;
    g.(block := b, page := First(f.ppb, b), used := g.used[b := 1])
  }

  /** First block in [lo, hi) that is not programmed, or -1. */
  ghost function FindFree(f: Image, lo: nat, hi: nat): (b: int)
    requires Sizes(f) && lo <= hi <= f.blocks
    ensures b == -1 || lo <= b < hi
    decreases hi - lo
  {
    if lo == hi then -1 else if Head(f, lo) != VALID then lo else FindFree(f, lo + 1, hi)
  }

  /** The block get_cursor opens: at or after the current one, else wrapping round; or -1. */
  ghost function NextFree(f: Image): (b: int)
    requires Sizes(f)
    ensures b == -1 || 0 <= b < f.blocks
  {
    var b := FindFree(f, f.block, f.blocks);
    if b != -1 then b else FindFree(f, 0, f.block)
  }

  ghost predicate Full(f: Image)
    requires Sizes(f)
  {
    f.page == -1 && NextFree(f) == -1
  }

  /** get_cursor, when the device is not full */
  ghost function Cursor(f: Image): Image
    requires Sizes(f) && !Full(f)
  {
    if f.page != -1 then f else Open(f, NextFree(f))
  }

  /** physical_program, both map updates, and update_cursor: the write of `a` at an open cursor */
  ghost function Program(f: Image, a: nat, d: char): Image
    requires Sizes(f) && f.page != -1 && a < |f.forward|
  {
    FirstInRange(f, f.block);
    f.(state := f.state[f.page := VALID], data := f.data[f.page := d],
       forward := f.forward[a := f.page], reverse := f.reverse[f.page := a],
       page := if f.page + 1 == First(f.ppb, f.block) + f.ppb then -1 else f.page + 1)
  }

  /** write_logging */
  ghost function WriteLog(f: Image, a: nat, d: char): (g: Image)
    requires Shape(f) && a < |f.forward|
    ensures Shape(g) && SameDevice(f, g)
  {
    if Full(f) then
      FailShape(f);
      f.(writeFails := f.writeFails + 1)
    else
      CursorShape(f);
      ProgramShape(Cursor(f), a, d);
      Program(Cursor(f), a, d)
  }

  ghost predicate SameDevice(f: Image, g: Image) {
    && f.blocks == g.blocks && f.ppb == g.ppb && |f.state| == |g.state| && |f.forward| == |g.forward|
    && f.gcBlock == g.gcBlock && f.gcCount == g.gcCount
  }

  lemma FailShape(f: Image)
    requires Shape(f)
    ensures Shape(f.(writeFails := f.writeFails + 1))
  {
    var g := f.(writeFails := f.writeFails + 1);
    forall p | 0 <= p < |g.state| ensures ReverseOk(g, p) { assert ReverseOk(f, p); }
    forall c | 0 <= c < f.blocks ensures Uniform(g, c) && UsedOk(g, c) {
      assert Uniform(f, c) && UsedOk(f, c);
    }
  }

  lemma EraseShape(f: Image, b: nat)
    requires Shape(f) && b < f.blocks && !IsOpen(f, b)
    ensures Shape(Erase(f, b))
  {
    var g := Erase(f, b);
    forall p | 0 <= p < |g.state| ensures ReverseOk(g, p) { assert ReverseOk(f, p); }
    FirstInRange(f, b);
    forall c | 0 <= c < f.blocks ensures Uniform(g, c) && UsedOk(g, c) {
      FirstInRange(f, c);
      assert Uniform(f, c) && UsedOk(f, c);
      if c != b {
        forall p | InBlock(f.ppb, c, p) && 0 <= p < |f.state| ensures g.state[p] == f.state[p] {
          if InBlock(f.ppb, b, p) { OneBlock(f.ppb, b, c, p); }
        }
      }
    }
  }

  lemma OpenShape(f: Image, b: nat)
    requires Shape(f) && b < f.blocks && f.page == -1 && Head(f, b) != VALID
    ensures Shape(Open(f, b))
  {
    if Head(f, b) == INVALID { EraseShape(f, b); }
    var e := if Head(f, b) == INVALID then Erase(f, b) else f;
    var g := Open(f, b);
    FirstInRange(f, b);
    assert Uniform(e, b) && Head(e, b) == ERASED;
    forall p | 0 <= p < |g.state| ensures ReverseOk(g, p) { assert ReverseOk(e, p); }
    forall c | 0 <= c < f.blocks ensures Uniform(g, c) && UsedOk(g, c) {
      assert Uniform(e, c) && UsedOk(e, c);
    }
  }

  lemma {:induction false} FindFreeIs(f: Image, lo: nat, hi: nat)
    requires Sizes(f) && lo <= hi <= f.blocks
    ensures FindFree(f, lo, hi) != -1 ==> Head(f, FindFree(f, lo, hi)) != VALID
    ensures FindFree(f, lo, hi) == -1 ==> forall b :: lo <= b < hi ==> Head(f, b) == VALID
    decreases hi - lo
  {
    if lo < hi { FindFreeIs(f, lo + 1, hi); }
  }

  lemma NextFreeIs(f: Image)
    requires Sizes(f)
    ensures NextFree(f) != -1 ==> Head(f, NextFree(f)) != VALID
    ensures NextFree(f) == -1 ==> forall b :: 0 <= b < f.blocks ==> Head(f, b) == VALID
  {
    FindFreeIs(f, f.block, f.blocks);
    FindFreeIs(f, 0, f.block);
  }

  lemma CursorShape(f: Image)
    requires Shape(f) && !Full(f)
    ensures Shape(Cursor(f)) && Cursor(f).page != -1
  {
    NextFreeIs(f);
    if f.page == -1 { OpenShape(f, NextFree(f)); }
  }

  lemma ProgramShape(f: Image, a: nat, d: char)
    requires Shape(f) && f.page != -1 && a < |f.forward|
    ensures Shape(Program(f, a, d))
  {
    var g, b := Program(f, a, d), f.block;
    FirstInRange(f, b);
    forall p | 0 <= p < |g.state| ensures ReverseOk(g, p) { assert ReverseOk(f, p); }
    forall c | 0 <= c < f.blocks ensures Uniform(g, c) && UsedOk(g, c) {
      FirstInRange(f, c);
      assert Uniform(f, c) && UsedOk(f, c);
      if c != b {
        forall p | InBlock(f.ppb, c, p) ensures p != f.page {
          if p == f.page { OneBlock(f.ppb, b, c, p); }
        }
        assert InBlock(f.ppb, c, First(f.ppb, c));
        assert Head(g, c) == Head(f, c) && !IsOpen(g, c);
      } else {
        assert InBlock(f.ppb, b, First(f.ppb, b));
        assert Head(g, b) == VALID;
      }
    }
  }

  // ---------- garbage collection ----------

  ghost predicate IsLive(f: Image, p: int)
    requires Sizes(f) && 0 <= p < |f.state|
  {
    assert ReverseOk(f, p);
    f.reverse[p] != -1 && f.forward[f.reverse[p]] == p
  }

  /** The live pages of [lo, hi), in address order. */
  ghost function LiveFrom(f: Image, lo: nat, hi: nat): seq<nat>
    requires Sizes(f) && lo <= hi <= |f.state|
    decreases hi - lo
  {
    if lo == hi then [] else (if IsLive(f, lo) then [lo] else []) + LiveFrom(f, lo + 1, hi)
  }

  ghost function Live(f: Image, b: nat): seq<nat>
    requires Sizes(f) && b < f.blocks
  {
    FirstInRange(f, b);
    LiveFrom(f, First(f.ppb, b), First(f.ppb, b) + f.ppb)
  }

  /** Pages that carry a logical page number, hence can be copied. */
  ghost predicate Copyable(f: Image, pages: seq<nat>)
    requires Sizes(f)
  {
    forall i :: 0 <= i < |pages| ==> pages[i] < |f.state| && f.reverse[pages[i]] != -1
  }

  lemma WriteKeepsCopyable(f: Image, a: nat, d: char, pages: seq<nat>)
    requires Shape(f) && a < |f.forward| && Copyable(f, pages)
    ensures Copyable(WriteLog(f, a, d), pages)
  {
  }

  /** Rewrite each listed page at the cursor, ignoring failures, as the collector does. */
  ghost function CopyLive(f: Image, pages: seq<nat>): (g: Image)
    requires Shape(f) && Copyable(f, pages)
    ensures Shape(g) && SameDevice(f, g)
    decreases |pages|
  {
    if pages == [] then f else
      assert ReverseOk(f, pages[0]);
      WriteKeepsCopyable(f, f.reverse[pages[0]], f.data[pages[0]], pages[1..]);
      CopyLive(WriteLog(f, f.reverse[pages[0]], f.data[pages[0]]), pages[1..])
  }

  /** Blocks the collector passes over: being written, erased, or entirely live. */
  ghost predicate Skips(f: Image, b: nat)
    requires Sizes(f) && b < f.blocks
  {
    b == f.block || Head(f, b) == ERASED || |Live(f, b)| == f.ppb
  }

  ghost function Sum(s: seq<int>): int {
    if s == [] then 0 else Sum(s[..|s| - 1]) + s[|s| - 1]
  }

  /** blocks_in_use */
  ghost function BlocksInUse(f: Image): int {
    Sum(f.used)
  }

  /** Copy a block's live pages out of it, then erase it. */
  ghost function Collect(f: Image, b: nat): (g: Image)
    requires Shape(f) && b < f.blocks && !Skips(f, b)
    ensures Shape(g) && SameDevice(f, g)
  {
    LiveIsCopyable(f, b);
    CollectShape(f, b);
    Erase(CopyLive(f, Live(f, b)), b)
  }

  /** The collector's loop over the blocks still to visit. */
  ghost function Gc(f: Image, order: seq<nat>, low: int): (g: Image)
    requires Shape(f) && forall i :: 0 <= i < |order| ==> order[i] < f.blocks
    ensures Shape(g) && g.blocks == f.blocks && g.ppb == f.ppb && |g.forward| == |f.forward|
    decreases |order|
  {
    if order == [] then f
    else if Skips(f, order[0]) then Gc(f, order[1..], low)
    else
      var g := Collect(f, order[0]);
      if BlocksInUse(g) <= low then
        MarkShape(g, order[0]);
        g.(gcBlock := order[0], gcCount := g.gcCount + 1)
      else Gc(g, order[1..], low)
  }

  function Range(lo: nat, hi: nat): (r: seq<nat>)
    requires lo <= hi
    ensures |r| == hi - lo && forall i :: 0 <= i < |r| ==> r[i] == lo + i
  {
    seq(hi - lo, i requires 0 <= i => lo + i)
  }

  /** garbage_collect: every block once, starting where the last collection stopped */
  ghost function GcAll(f: Image, low: int): (g: Image)
    requires Shape(f)
    ensures Shape(g) && g.blocks == f.blocks && g.ppb == f.ppb && |g.forward| == |f.forward|
  {
    Gc(f, Order(f), low)
  }

  ghost function Order(f: Image): (r: seq<nat>)
    requires Sizes(f)
    ensures forall i :: 0 <= i < |r| ==> r[i] < f.blocks
  {
    Range(f.gcBlock, f.blocks) + Range(0, f.gcBlock)
  }

  /** upkeep */
  ghost function Upkeep(f: Image, high: int, low: int): (g: Image)
    requires Shape(f)
    ensures Shape(g) && g.blocks == f.blocks && g.ppb == f.ppb && |g.forward| == |f.forward|
  {
    if BlocksInUse(f) >= high then GcAll(f, low) else f
  }

  lemma MarkShape(f: Image, b: nat)
    requires Shape(f) && b < f.blocks
    ensures Shape(f.(gcBlock := b, gcCount := f.gcCount + 1))
  {
    var g := f.(gcBlock := b, gcCount := f.gcCount + 1);
    forall p | 0 <= p < |g.state| ensures ReverseOk(g, p) { assert ReverseOk(f, p); }
    forall c | 0 <= c < f.blocks ensures Uniform(g, c) && UsedOk(g, c) {
      assert Uniform(f, c) && UsedOk(f, c);
    }
  }

  lemma {:induction false} LiveFromIsCopyable(f: Image, lo: nat, hi: nat)
    requires Sizes(f) && lo <= hi <= |f.state|
    ensures Copyable(f, LiveFrom(f, lo, hi))
    decreases hi - lo
  {
    if lo < hi { LiveFromIsCopyable(f, lo + 1, hi); }
  }

  lemma LiveIsCopyable(f: Image, b: nat)
    requires Sizes(f) && b < f.blocks
    ensures Copyable(f, Live(f, b))
  {
    FirstInRange(f, b);
    LiveFromIsCopyable(f, First(f.ppb, b), First(f.ppb, b) + f.ppb);
  }

  /** Nothing the collector writes goes into a programmed block other than the current one. */
  ghost predicate Closed(f: Image, b: nat)
    requires Sizes(f) && b < f.blocks
  {
    b != f.block && Head(f, b) == VALID
  }

  lemma WriteKeepsClosed(f: Image, a: nat, d: char, b: nat)
    requires Shape(f) && a < |f.forward| && b < f.blocks && Closed(f, b)
    ensures Closed(WriteLog(f, a, d), b)
  {
    if !Full(f) {
      NextFreeIs(f);
      FirstInRange(f, b);
      if f.page == -1 {
        var c := NextFree(f);
        FirstInRange(f, c);
        assert InBlock(f.ppb, b, First(f.ppb, b));
        if InBlock(f.ppb, c, First(f.ppb, b)) { OneBlock(f.ppb, b, c, First(f.ppb, b)); }
      }
    }
  }

  lemma {:induction false} CopyKeepsClosed(f: Image, pages: seq<nat>, b: nat)
    requires Shape(f) && Copyable(f, pages) && b < f.blocks && Closed(f, b)
    ensures Closed(CopyLive(f, pages), b)
    decreases |pages|
  {
    if pages != [] {
      assert ReverseOk(f, pages[0]);
      WriteKeepsCopyable(f, f.reverse[pages[0]], f.data[pages[0]], pages[1..]);
      WriteKeepsClosed(f, f.reverse[pages[0]], f.data[pages[0]], b);
      CopyKeepsClosed(WriteLog(f, f.reverse[pages[0]], f.data[pages[0]]), pages[1..], b);
    }
  }

  /** A block that was never programmed has nothing live. */
  lemma {:induction false} NothingLive(f: Image, b: nat, lo: nat, hi: nat)
    requires Shape(f) && b < f.blocks && b != f.block && Head(f, b) == INVALID
    requires First(f.ppb, b) <= lo <= hi <= First(f.ppb, b) + f.ppb && hi <= |f.state|
    ensures LiveFrom(f, lo, hi) == []
    decreases hi - lo
  {
    if lo < hi {
      NothingLive(f, b, lo + 1, hi);
      assert Uniform(f, b) && InBlock(f.ppb, b, lo) && ReverseOk(f, lo);
    }
  }

  lemma CollectShape(f: Image, b: nat)
    requires Shape(f) && b < f.blocks && !Skips(f, b) && Copyable(f, Live(f, b))
    ensures Shape(Erase(CopyLive(f, Live(f, b)), b))
  {
    hide Sizes, Uniform, UsedOk, ReverseOk, Erase;
    FirstInRange(f, b);
    if Head(f, b) == VALID {
      CopyKeepsClosed(f, Live(f, b), b);
    } else if Head(f, b) == INVALID {
      NothingLive(f, b, First(f.ppb, b), First(f.ppb, b) + f.ppb);
    }
    EraseShape(CopyLive(f, Live(f, b)), b);
  }
}
