/** What an unsafe collection of the log-structured SSD costs: some stored value, for some data. */
module FlashLoss {
  import opened Flash
  import opened FlashTheorems

  // ---------- the collector does not look at the data ----------

  /** The same device with perhaps other values stored. */
  ghost predicate Alike(f: Image, g: Image) { g == f.(data := g.data) && |g.data| == |f.data| }

  lemma AlikeShape(f: Image, g: Image)
    requires Shape(f) && Alike(f, g)
    ensures Shape(g) && (forall b :: 0 <= b < f.blocks ==> Head(g, b) == Head(f, b))
    ensures forall a :: 0 <= a < |f.forward| ==> (Sound(g, a) <==> Sound(f, a))
  {
    forall p | 0 <= p < |g.state| ensures ReverseOk(g, p) { assert ReverseOk(f, p); }
    forall c | 0 <= c < f.blocks ensures Uniform(g, c) && UsedOk(g, c) && Head(g, c) == Head(f, c) {
      assert Uniform(f, c) && UsedOk(f, c);
    }
  }

  lemma {:induction false} AlikeFindFree(f: Image, g: Image, lo: nat, hi: nat)
    requires Sizes(f) && Sizes(g) && Alike(f, g) && lo <= hi <= f.blocks
    ensures FindFree(f, lo, hi) == FindFree(g, lo, hi)
    decreases hi - lo
  {
    if lo < hi { AlikeFindFree(f, g, lo + 1, hi); }
  }

  lemma AlikeFull(f: Image, g: Image)
    requires Sizes(f) && Sizes(g) && Alike(f, g)
    ensures NextFree(f) == NextFree(g) && (Full(f) <==> Full(g))
  {
    AlikeFindFree(f, g, f.block, f.blocks);
    AlikeFindFree(f, g, 0, f.block);
  }

  lemma AlikeErase(f: Image, g: Image, b: nat)
    requires Sizes(f) && Sizes(g) && Alike(f, g) && b < f.blocks
    ensures Alike(Erase(f, b), Erase(g, b))
  {
    assert Erase(f, b).state == Erase(g, b).state;
  }

  lemma AlikeWrite(f: Image, g: Image, a: nat, d: char, e: char)
    requires Shape(f) && Shape(g) && Alike(f, g) && a < |f.forward|
    ensures Alike(WriteLog(f, a, d), WriteLog(g, a, e))
  {
    AlikeFull(f, g);
    if !Full(f) {
      AlikeShape(f, g);
      CursorShape(f);
      CursorShape(g);
      AlikeCursor(f, g);
      AlikeProgram(Cursor(f), Cursor(g), a, d, e);
    }
  }

  lemma AlikeCursor(f: Image, g: Image)
    requires Shape(f) && Shape(g) && Alike(f, g) && !Full(f) && !Full(g) && NextFree(f) == NextFree(g)
    requires forall b :: 0 <= b < f.blocks ==> Head(g, b) == Head(f, b)
    ensures Alike(Cursor(f), Cursor(g))
  {
    if f.page == -1 && Head(f, NextFree(f)) == INVALID { AlikeErase(f, g, NextFree(f)); }
  }

  lemma AlikeProgram(f: Image, g: Image, a: nat, d: char, e: char)
    requires Sizes(f) && Sizes(g) && Alike(f, g) && f.page != -1 && a < |f.forward|
    ensures Alike(Program(f, a, d), Program(g, a, e))
  {
    FirstInRange(f, f.block);
  }

  lemma {:induction false} AlikeCopy(f: Image, g: Image, pages: seq<nat>)
    requires Shape(f) && Shape(g) && Alike(f, g) && Copyable(f, pages) && Copyable(g, pages)
    ensures Alike(CopyLive(f, pages), CopyLive(g, pages))
    decreases |pages|
  {
    hide Shape, Sizes;
    if pages != [] {
      CopyStep(f, pages);
      CopyStep(g, pages);
      AlikeWrite(f, g, f.reverse[pages[0]], f.data[pages[0]], g.data[pages[0]]);
      AlikeCopy(WriteLog(f, f.reverse[pages[0]], f.data[pages[0]]),
        WriteLog(g, g.reverse[pages[0]], g.data[pages[0]]), pages[1..]);
    }
  }

  /** The first of the copies. */
  lemma CopyStep(f: Image, pages: seq<nat>)
    requires Shape(f) && Copyable(f, pages) && pages != []
    ensures pages[0] < |f.state| == |f.reverse| == |f.data| && 0 <= f.reverse[pages[0]] < |f.forward|
    ensures var g := WriteLog(f, f.reverse[pages[0]], f.data[pages[0]]);
      Copyable(g, pages[1..]) && CopyLive(f, pages) == CopyLive(g, pages[1..])
  {
    assert ReverseOk(f, pages[0]);
    WriteKeepsCopyable(f, f.reverse[pages[0]], f.data[pages[0]], pages[1..]);
  }

  lemma {:induction false} AlikeLive(f: Image, g: Image, lo: nat, hi: nat)
    requires Sizes(f) && Sizes(g) && Alike(f, g) && lo <= hi <= |f.state|
    ensures LiveFrom(f, lo, hi) == LiveFrom(g, lo, hi)
    decreases hi - lo
  {
    if lo < hi { AlikeLive(f, g, lo + 1, hi); }
  }

  lemma AlikeSkips(f: Image, g: Image, b: nat)
    requires Shape(f) && Shape(g) && Alike(f, g) && b < f.blocks
    ensures (Skips(f, b) <==> Skips(g, b)) && Live(f, b) == Live(g, b)
  {
    FirstInRange(f, b);
    AlikeLive(f, g, First(f.ppb, b), First(f.ppb, b) + f.ppb);
  }

  lemma AlikeCollect(f: Image, g: Image, b: nat)
    requires Shape(f) && Shape(g) && Alike(f, g) && b < f.blocks && !Skips(f, b) && !Skips(g, b)
    ensures Alike(Collect(f, b), Collect(g, b))
  {
    hide Sizes, Uniform, UsedOk, Erase, CopyLive;
    AlikeSkips(f, g, b);
    LiveIsCopyable(f, b);
    LiveIsCopyable(g, b);
    AlikeCopy(f, g, Live(f, b));
    AlikeErase(CopyLive(f, Live(f, b)), CopyLive(g, Live(g, b)), b);
  }

  lemma {:induction false} AlikeGc(f: Image, g: Image, order: seq<nat>, low: int)
    requires Shape(f) && Shape(g) && Alike(f, g) && forall i :: 0 <= i < |order| ==> order[i] < f.blocks
    ensures Alike(Gc(f, order, low), Gc(g, order, low))
    decreases |order|
  {
    hide Sizes, Uniform, UsedOk, Collect, Live, Skips;
    if order != [] {
      AlikeSkips(f, g, order[0]);
      if Skips(f, order[0]) {
        AlikeGc(f, g, order[1..], low);
      } else {
        AlikeCollect(f, g, order[0]);
        AlikeGc(Collect(f, order[0]), Collect(g, order[0]), order[1..], low);
      }
    }
  }

  // ---------- where one value can be ----------

  /** The value `x` is only in programmed pages of logical page `a`. */
  ghost predicate OnlyAt(f: Image, a: int, x: char) {
    |f.data| == |f.state| == |f.reverse|
    && forall p :: 0 <= p < |f.data| && f.data[p] == x ==> f.state[p] == VALID && f.reverse[p] == a
  }

  lemma OnlyAtWrite(f: Image, b: nat, d: char, a: int, x: char)
    requires Shape(f) && b < |f.forward| && OnlyAt(f, a, x) && x != ' ' && (d == x ==> b == a)
    ensures OnlyAt(WriteLog(f, b, d), a, x)
  {
    if !Full(f) { CursorFacts(f); }
  }

  lemma {:induction false} OnlyAtCopy(f: Image, pages: seq<nat>, a: int, x: char)
    requires Shape(f) && Copyable(f, pages) && OnlyAt(f, a, x) && x != ' '
    ensures OnlyAt(CopyLive(f, pages), a, x)
    decreases |pages|
  {
    hide Shape, Sizes;
    if pages != [] {
      CopyStep(f, pages);
      OnlyAtWrite(f, f.reverse[pages[0]], f.data[pages[0]], a, x);
      OnlyAtCopy(WriteLog(f, f.reverse[pages[0]], f.data[pages[0]]), pages[1..], a, x);
    }
  }

  lemma OnlyAtErase(f: Image, b: nat, a: int, x: char)
    requires Sizes(f) && b < f.blocks && OnlyAt(f, a, x) && x != ' '
    ensures OnlyAt(Erase(f, b), a, x)
  {
  }

  lemma {:induction false} OnlyAtGc(f: Image, order: seq<nat>, low: int, a: int, x: char)
    requires Shape(f) && (forall i :: 0 <= i < |order| ==> order[i] < f.blocks) && OnlyAt(f, a, x) && x != ' '
    ensures OnlyAt(Gc(f, order, low), a, x)
    decreases |order|
  {
    hide Uniform, UsedOk, Live, Skips, CopyLive, Erase, OnlyAt;
    if order != [] {
      if Skips(f, order[0]) {
        OnlyAtGc(f, order[1..], low, a, x);
      } else {
        LiveIsCopyable(f, order[0]);
        OnlyAtCopy(f, Live(f, order[0]), a, x);
        OnlyAtErase(CopyLive(f, Live(f, order[0])), order[0], a, x);
        var g := Collect(f, order[0]);
        OnlyAtGc(g, order[1..], low, a, x);
        OnlyAtMark(g, order[0], a, x);
      }
    }
  }

  lemma OnlyAtMark(f: Image, b: nat, a: int, x: char)
    requires OnlyAt(f, a, x)
    ensures OnlyAt(f.(gcBlock := b, gcCount := f.gcCount + 1), a, x)
  {
  }

  // ---------- the condition for the contents ----------

  ghost predicate KeepsContents(f: Image, order: seq<nat>, low: int)
    requires Shape(f) && forall i :: 0 <= i < |order| ==> order[i] < f.blocks
  {
    Contents(Gc(f, order, low)) == Contents(f)
  }

  /** A value that only the mapped page of `a` holds, so that losing the page means losing the value. */
  ghost function Marking(f: Image, a: nat): Image
    requires Sizes(f) && a < |f.forward|
  {
    f.(data := seq(|f.data|, p => if p == f.forward[a] then 'x' else ' '))
  }

  lemma MarkedValueLost(f: Image, order: seq<nat>, low: int, a: nat)
    requires Shape(f) && Mapped(f) && (forall i :: 0 <= i < |order| ==> order[i] < f.blocks)
    requires a < |f.forward| && !Sound(Gc(f, order, low), a)
    ensures Shape(Marking(f, a)) && Alike(f, Marking(f, a)) && !KeepsContents(Marking(f, a), order, low)
  {
    var g := Marking(f, a);
    AlikeShape(f, g);
    assert Sound(f, a);
    AlikeGc(f, g, order, low);
    AlikeShape(Gc(f, order, low), Gc(g, order, low));
    var h := Gc(g, order, low);
    if f.forward[a] != -1 {
      OnlyAtGc(g, order, low, a, 'x');
      assert Contents(g)[a] == 'x';
      assert !Sound(h, a) && h.forward[a] != -1 && h.data[h.forward[a]] != 'x';
    } else {
      assert a !in Contents(g) && a in Contents(h);
    }
  }

  /** A collection keeps the contents, whatever values the device holds, if and only if the first victim fits. */
  lemma ContentsExactlySafe(f: Image, order: seq<nat>, low: int)
    requires Shape(f) && Mapped(f) && (forall i :: 0 <= i < |order| ==> order[i] < f.blocks)
    ensures FirstVictimFits(f, order, low)
      <==> forall g: Image :: Alike(f, g) ==> Shape(g) && KeepsContents(g, order, low)
  {
    hide Sizes, Uniform, UsedOk, Sound, FirstVictimFits, KeepsContents, Gc;
    GcExactlySafe(f, order, low);
    if FirstVictimFits(f, order, low) {
      forall g: Image | Alike(f, g) ensures Shape(g) && KeepsContents(g, order, low) {
        KeepsAlike(f, g, order, low);
      }
    } else {
      var a: nat :| a < |f.forward| && !Sound(Gc(f, order, low), a);
      MarkedValueLost(f, order, low, a);
    }
  }

  lemma KeepsAlike(f: Image, g: Image, order: seq<nat>, low: int)
    requires Shape(f) && Mapped(f) && (forall i :: 0 <= i < |order| ==> order[i] < f.blocks)
    requires Alike(f, g) && Mapped(Gc(f, order, low))
    ensures Shape(g) && KeepsContents(g, order, low)
  {
    hide Sound;
    AlikeShape(f, g);
    AlikeGc(f, g, order, low);
    AlikeShape(Gc(f, order, low), Gc(g, order, low));
    GcExactlySafe(g, order, low);
  }

  // ---------- without the room, data is lost ----------

  /** A device of two blocks of three pages with four logical pages, and what the writes 0:a 1:b 2:c 3:e 0:d make
      of it. */
  ghost function Stage(writes: nat): (f: Image)
    requires writes <= 5
    ensures f.blocks == 2 && f.ppb == 3 && |f.state| == |f.data| == |f.reverse| == 6 && |f.forward| == 4
  {
    if writes == 0 then
      Image(2, 3, Repeat(6, INVALID), Repeat(6, ' '), Repeat(4, -1), Repeat(6, -1), -1, 0, Repeat(2, 0), 0, 0, 0)
    else if writes == 1 then
      Image(2, 3, [VALID, ERASED, ERASED, INVALID, INVALID, INVALID], ['a', ' ', ' ', ' ', ' ', ' '],
            [0, -1, -1, -1], [0, -1, -1, -1, -1, -1], 1, 0, [1, 0], 0, 0, 0)
    else if writes == 2 then
      Image(2, 3, [VALID, VALID, ERASED, INVALID, INVALID, INVALID], ['a', 'b', ' ', ' ', ' ', ' '],
            [0, 1, -1, -1], [0, 1, -1, -1, -1, -1], 2, 0, [1, 0], 0, 0, 0)
    else if writes == 3 then
      Image(2, 3, [VALID, VALID, VALID, INVALID, INVALID, INVALID], ['a', 'b', 'c', ' ', ' ', ' '],
            [0, 1, 2, -1], [0, 1, 2, -1, -1, -1], -1, 0, [1, 0], 0, 0, 0)
    else if writes == 4 then
      Image(2, 3, [VALID, VALID, VALID, VALID, ERASED, ERASED], ['a', 'b', 'c', 'e', ' ', ' '],
            [0, 1, 2, 3], [0, 1, 2, 3, -1, -1], 4, 1, [1, 1], 0, 0, 0)
    else
      Image(2, 3, [VALID, VALID, VALID, VALID, VALID, ERASED], ['a', 'b', 'c', 'e', 'd', ' '],
            [4, 1, 2, 3], [0, 1, 2, 3, 0, -1], 5, 1, [1, 1], 0, 0, 0)
  }

  ghost function Cramped(): Image { Stage(5) }

  /** The device is that after five writes to a new one. */
  lemma CrampedIsReached()
    ensures IsFresh(Stage(0), 4, 2, 3) && Shape(Stage(0))
    ensures Cramped() ==
      WriteLog(WriteLog(WriteLog(WriteLog(WriteLog(Stage(0), 0, 'a'), 1, 'b'), 2, 'c'), 3, 'e'), 0, 'd')
    ensures Shape(Cramped()) && Mapped(Cramped())
  {
    hide Shape, WriteLog, Mapped;
    FreshIsEmpty(Stage(0), 4, 2, 3);
    OpenedWrite(0, 0, 'a');
    WriteTheorem(Stage(0), 0, 'a');
    NextWrite(1, 1, 'b');
    WriteTheorem(Stage(1), 1, 'b');
    NextWrite(2, 2, 'c');
    WriteTheorem(Stage(2), 2, 'c');
    OpenedWrite(3, 3, 'e');
    WriteTheorem(Stage(3), 3, 'e');
    NextWrite(4, 0, 'd');
    WriteTheorem(Stage(4), 0, 'd');
  }

  lemma Firsts()
    ensures First(3, 0) == 0 && First(3, 1) == 3 && First(3, 2) == 6
  {
    FirstIsProduct(3, 1);
    FirstIsProduct(3, 2);
  }

  /** A write to the open block. */
  lemma NextWrite(n: nat, a: nat, d: char)
    requires (n, a, d) in {(1, 1, 'b'), (2, 2, 'c'), (4, 0, 'd')} && Shape(Stage(n))
    ensures WriteLog(Stage(n), a, d) == Stage(n + 1)
  {
    hide Sizes, Uniform, UsedOk, ReverseOk;
    Firsts();
    var f, g := Stage(n), Stage(n + 1);
    assert WriteLog(f, a, d) == Program(f, a, d);
    var h := Program(f, a, d);
    assert h.state == g.state && h.data == g.data && h.forward == g.forward && h.reverse == g.reverse;
  }

  lemma OpenedProgram(n: nat, b: nat, a: nat, d: char)
    requires (n, b, a, d) in {(0, 0, 0, 'a'), (3, 1, 3, 'e')} && Shape(Stage(n))
    requires b < Stage(n).blocks && Head(Stage(n), b) == INVALID && Sizes(Open(Stage(n), b))
    ensures Open(Stage(n), b).page != -1 && a < |Open(Stage(n), b).forward|
    ensures Program(Open(Stage(n), b), a, d) == Stage(n + 1)
  {
    hide Uniform, UsedOk, ReverseOk;
    Firsts();
    var g, h := Stage(n + 1), Program(Open(Stage(n), b), a, d);
    assert h.state == g.state && h.data == g.data && h.forward == g.forward
      && h.reverse == g.reverse && h.used == g.used;
  }

  /** A write that opens the next free block. */
  lemma OpenedWrite(n: nat, a: nat, d: char)
    requires (n, a, d) in {(0, 0, 'a'), (3, 3, 'e')} && Shape(Stage(n))
    ensures WriteLog(Stage(n), a, d) == Stage(n + 1)
  {
    hide Uniform, UsedOk, ReverseOk, Open, Program;
    Firsts();
    var f, b := Stage(n), if n == 0 then 0 else 1;
    assert NextFree(f) == b && Head(f, b) == INVALID by {
      assert FindFree(f, 0, 2) == b;
    }
    CursorShape(f);
    assert Cursor(f) == Open(f, b);
    OpenedProgram(n, b, a, d);
  }

  lemma CrampedVictim()
    requires Shape(Cramped())
    ensures Head(Cramped(), 0) == VALID && Live(Cramped(), 0) == [1, 2] && Writable(Cramped().state) == 1
  {
    var f := Cramped();
    Firsts();
    assert LiveFrom(f, 3, 3) == [];
    assert LiveFrom(f, 2, 3) == [2];
    assert LiveFrom(f, 1, 3) == [1, 2];
    assert !IsLive(f, 0);
    assert f.state[..5] == [VALID, VALID, VALID, VALID, VALID];
    WritableZero(f.state[..5]);
  }

  /** The headroom is needed: on this device, reached by five writes and with all that was written still there, a
      collection leaves the mapping broken and the value of logical page 2 gone. */
  lemma CollectionCanLose(low: int)
    ensures Shape(Cramped()) && Mapped(Cramped()) && !Mapped(GcAll(Cramped(), low))
    ensures Contents(Cramped()) == map[0 := 'd', 1 := 'b', 2 := 'c', 3 := 'e']
    ensures Contents(GcAll(Cramped(), low)) == map[0 := 'd', 1 := 'b', 2 := ' ', 3 := 'e']
  {
    hide Shape, Mapped, WriteLog, GcAll, Sizes;
    CrampedIsReached();
    CrampedBroken(low);
    CrampedAfter(low);
  }

  lemma CrampedBroken(low: int)
    requires Shape(Cramped()) && Mapped(Cramped())
    ensures !Mapped(GcAll(Cramped(), low))
  {
    hide Sizes, Uniform, UsedOk;
    CrampedVictim();
    assert Order(Cramped())[0] == 0;
    GcLoses(Cramped(), Order(Cramped()), low);
  }

  /** One live page is copied, the other refused, and the block erased. */
  ghost function Collected(): Image {
    Image(2, 3, [ERASED, ERASED, ERASED, VALID, VALID, VALID], [' ', ' ', ' ', 'e', 'd', 'b'],
          [4, 5, 2, 3], [0, 1, 2, 3, 0, 1], -1, 1, [0, 1], 0, 0, 1)
  }

  /** After the copy that still finds room. */
  ghost function Filled(): Image {
    Cramped().(state := Repeat(6, VALID), data := ['a', 'b', 'c', 'e', 'd', 'b'], forward := [4, 5, 2, 3],
      reverse := [0, 1, 2, 3, 0, 1], page := -1)
  }

  lemma FirstCopy()
    requires Shape(Cramped())
    ensures WriteLog(Cramped(), 1, 'b') == Filled() && Shape(Filled())
  {
    hide Sizes, Uniform, UsedOk, ReverseOk;
    Firsts();
    var f, g := Cramped(), Filled();
    var h := Program(f, 1, 'b');
    assert WriteLog(f, 1, 'b') == h;
    assert h.state == g.state && h.data == g.data && h.forward == g.forward && h.reverse == g.reverse;
  }

  lemma SecondCopy()
    requires Shape(Filled())
    ensures WriteLog(Filled(), 2, 'c') == Filled().(writeFails := 1)
  {
    hide Sizes, Uniform, UsedOk, ReverseOk;
    WritableZero(Filled().state);
    FullIff(Filled());
  }

  lemma CrampedCollected()
    requires Shape(Cramped())
    ensures !Skips(Cramped(), 0) && Collect(Cramped(), 0) == Collected()
  {
    hide Uniform, UsedOk, ReverseOk, WriteLog, Live;
    CrampedVictim();
    Firsts();
    FirstCopy();
    SecondCopy();
    LiveIsCopyable(Cramped(), 0);
    CopyStep(Cramped(), [1, 2]);
    assert [1, 2][1..] == [2] && [2][1..] == [];
    CopyStep(Filled(), [2]);
    var h := Filled().(writeFails := 1);
    assert CopyLive(Cramped(), [1, 2]) == h;
    ErasedLast(h);
  }

  lemma ErasedLast(h: Image)
    requires h == Filled().(writeFails := 1) && Shape(h)
    ensures Erase(h, 0) == Collected()
  {
    hide Uniform, UsedOk, ReverseOk;
    Firsts();
    var e := Erase(h, 0);
    assert e.state == Collected().state && e.data == Collected().data && e.used == Collected().used;
  }

  /** The other block is the one being written, so the collection ends here. */
  lemma CrampedAfter(low: int)
    requires Shape(Cramped())
    ensures Contents(GcAll(Cramped(), low)) == map[0 := 'd', 1 := 'b', 2 := ' ', 3 := 'e']
  {
    hide Sizes, Uniform, UsedOk, ReverseOk, Collect, Live, BlocksInUse;
    CrampedCollected();
    var f, order := Cramped(), Order(Cramped());
    assert order == [0, 1] && order[1..] == [1] && [1][1..] == [];
    assert Skips(Collected(), 1);
    assert Gc(Collected(), [1], low) == Collected();
    var g := Collected().(gcBlock := 0, gcCount := 1);
    assert GcAll(f, low) == Collected() || GcAll(f, low) == g;
    CollectedHolds(Collected());
    MarkShape(Collected(), 0);
    MarkKeepsSound(Collected(), 0);
  }

  lemma CollectedHolds(g: Image)
    requires Sizes(g) && g.data == Collected().data && g.forward == Collected().forward
    ensures Contents(g) == map[0 := 'd', 1 := 'b', 2 := ' ', 3 := 'e']
  {
  }
}
