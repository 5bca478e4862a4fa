/** What a write, an erase and a garbage collection do to the contents of the log-structured SSD. */
module FlashTheorems {
  import opened Flash

  // ---------- one write ----------

  /** `g` is `f` after a successful write of `d` to logical page `a` at physical page `q`. */
  ghost predicate Wrote(f: Image, g: Image, a: nat, d: char, q: nat) {
    && SameDevice(f, g) && |f.state| == |f.data| == |f.reverse| == |g.data|
    && q < |f.state| && a < |f.forward|
    && f.state[q] != VALID && g.state[q] == VALID && g.data[q] == d
    && g.forward == f.forward[a := q] && g.reverse == f.reverse[q := a] && g.writeFails == f.writeFails
    && (forall p :: 0 <= p < |f.state| && p != q ==> (g.state[p] == VALID <==> f.state[p] == VALID))
    && (forall p :: 0 <= p < |f.state| && p != q && f.state[p] == VALID ==> g.data[p] == f.data[p])
  }

  lemma CursorFacts(f: Image)
    requires Shape(f) && !Full(f)
    ensures var g := Cursor(f); Shape(g) && SameDevice(f, g) && g.forward == f.forward && g.reverse == f.reverse
    ensures var g := Cursor(f); g.writeFails == f.writeFails && |f.state| == |f.data| == |f.reverse| == |g.data|
    ensures var g := Cursor(f); 0 <= g.page < |f.state| && f.state[g.page] != VALID && g.state[g.page] == ERASED
    ensures var g := Cursor(f); forall p :: 0 <= p < |f.state| ==> (g.state[p] == VALID <==> f.state[p] == VALID)
    ensures var g := Cursor(f); forall p :: 0 <= p < |f.state| && f.state[p] == VALID ==> g.data[p] == f.data[p]
    ensures var g := Cursor(f); g.block == f.block || (f.page == -1 && Head(f, g.block) != VALID)
  {
    CursorShape(f);
    NextFreeIs(f);
    var g := Cursor(f);
    FirstInRange(f, g.block);
    assert Uniform(g, g.block);
    if f.page == -1 {
      assert Uniform(f, g.block);
      assert InBlock(f.ppb, g.block, First(f.ppb, g.block));
    }
  }

  lemma WriteIs(f: Image, a: nat, d: char) returns (q: nat)
    requires Shape(f) && a < |f.forward| && !Full(f)
    ensures Wrote(f, WriteLog(f, a, d), a, d, q)
    ensures var g := WriteLog(f, a, d); g.block == f.block || Head(f, g.block) != VALID
  {
    CursorFacts(f);
    q := Cursor(f).page;
  }

  lemma WroteKeepsContents(f: Image, g: Image, a: nat, d: char, q: nat)
    requires Sizes(f) && Sizes(g) && Mapped(f) && Wrote(f, g, a, d, q)
    ensures Mapped(g) && Contents(g) == Contents(f)[a := d]
  {
    forall c | 0 <= c < |g.forward| ensures Sound(g, c) {
      assert Sound(f, c);
    }
    forall c | 0 <= c < |g.forward| && c != a && f.forward[c] != -1
      ensures g.data[g.forward[c]] == f.data[f.forward[c]]
    {
      assert Sound(f, c);
    }
  }

  // ---------- room ----------

  lemma {:induction false} WritableSame(s: seq<PageState>, t: seq<PageState>)
    requires |s| == |t| && forall p :: 0 <= p < |s| ==> (s[p] == VALID <==> t[p] == VALID)
    ensures Writable(s) == Writable(t)
  {
    if s != [] { WritableSame(s[..|s| - 1], t[..|t| - 1]); }
  }

  lemma {:induction false} WritableOneLess(s: seq<PageState>, t: seq<PageState>, q: nat)
    requires q < |s| == |t| && s[q] != VALID && t[q] == VALID
    requires forall p :: 0 <= p < |s| && p != q ==> (s[p] == VALID <==> t[p] == VALID)
    ensures Writable(s) == Writable(t) + 1
  {
    if q == |s| - 1 {
      WritableSame(s[..q], t[..q]);
    } else {
      WritableOneLess(s[..|s| - 1], t[..|t| - 1], q);
    }
  }

  lemma {:induction false} WritableErased(s: seq<PageState>, t: seq<PageState>, lo: nat, n: nat)
    requires lo + n <= |s| == |t|
    requires forall p :: 0 <= p < |s| ==> (t[p] == VALID <==> s[p] == VALID && !(lo <= p < lo + n))
    requires forall p :: lo <= p < lo + n ==> s[p] == VALID
    ensures Writable(t) == Writable(s) + n
    decreases n
  {
    if n == 0 {
      WritableSame(s, t);
    } else {
      var u := t[lo + n - 1 := VALID];
      WritableOneLess(t, u, lo + n - 1);
      WritableErased(s, u, lo, n - 1);
    }
  }

  lemma {:induction false} WritableZero(s: seq<PageState>)
    ensures Writable(s) == 0 <==> forall p :: 0 <= p < |s| ==> s[p] == VALID
  {
    if s != [] {
      WritableZero(s[..|s| - 1]);
      assert forall p :: 0 <= p < |s| - 1 ==> s[..|s| - 1][p] == s[p];
    }
  }

  /** A write fails exactly when no page is left to program. */
  lemma FullIff(f: Image)
    requires Shape(f)
    ensures Full(f) <==> Writable(f.state) == 0
  {
    WritableZero(f.state);
    if Full(f) {
      NextFreeIs(f);
      forall p | 0 <= p < |f.state| ensures f.state[p] == VALID {
        var b := SomeBlock(f.ppb, f.blocks, p);
        assert Uniform(f, b) && Head(f, b) == VALID;
      }
    } else {
      CursorFacts(f);
    }
  }

  /** A successful write sets exactly one value and uses exactly one page; a refused one changes nothing. */
  lemma WriteTheorem(f: Image, a: nat, d: char)
    requires Shape(f) && Mapped(f) && a < |f.forward|
    ensures var g := WriteLog(f, a, d);
            Mapped(g) &&
            if Writable(f.state) == 0
            then Contents(g) == Contents(f) && g.state == f.state && g.writeFails == f.writeFails + 1
            else
              Contents(g) == Contents(f)[a := d] && g.writeFails == f.writeFails
              && Writable(g.state) == Writable(f.state) - 1
  {
    FullIff(f);
    var g := WriteLog(f, a, d);
    if Full(f) {
      forall c | 0 <= c < |f.forward| ensures Sound(g, c) { assert Sound(f, c); }
    } else {
      var q := WriteIs(f, a, d);
      WroteKeepsContents(f, g, a, d, q);
      WritableOneLess(f.state, g.state, q);
    }
  }

  // ---------- collecting one block ----------

  ghost predicate PagesOf(f: Image, b: nat, pages: seq<nat>)
    requires Sizes(f)
  {
    && (forall i :: 0 <= i < |pages| ==> InBlock(f.ppb, b, pages[i]) && pages[i] < |f.state| && IsLive(f, pages[i]))
    && (forall i, j :: 0 <= i < j < |pages| ==> pages[i] < pages[j])
  }

  lemma {:induction false} LiveFromIs(f: Image, b: nat, lo: nat, hi: nat)
    requires Sizes(f) && b < f.blocks && First(f.ppb, b) <= lo <= hi <= First(f.ppb, b) + f.ppb && hi <= |f.state|
    ensures PagesOf(f, b, LiveFrom(f, lo, hi)) && |LiveFrom(f, lo, hi)| <= hi - lo
    ensures forall i :: 0 <= i < |LiveFrom(f, lo, hi)| ==> lo <= LiveFrom(f, lo, hi)[i] < hi
    ensures forall p :: lo <= p < hi && IsLive(f, p) ==> p in LiveFrom(f, lo, hi)
    decreases hi - lo
  {
    if lo < hi {
      LiveFromIs(f, b, lo + 1, hi);
      var rest := LiveFrom(f, lo + 1, hi);
      assert LiveFrom(f, lo, hi) == (if IsLive(f, lo) then [lo] else []) + rest;
    }
  }

  /** `Live` lists exactly the live pages of the block, each once. */
  lemma LiveIs(f: Image, b: nat)
    requires Sizes(f) && b < f.blocks
    ensures PagesOf(f, b, Live(f, b)) && Copyable(f, Live(f, b)) && |Live(f, b)| <= f.ppb
    ensures forall p :: InBlock(f.ppb, b, p) && 0 <= p < |f.state| && IsLive(f, p) ==> p in Live(f, b)
  {
    FirstInRange(f, b);
    LiveFromIs(f, b, First(f.ppb, b), First(f.ppb, b) + f.ppb);
  }

  lemma ClosedIsProgrammed(f: Image, b: nat)
    requires Shape(f) && b < f.blocks && Closed(f, b)
    ensures forall p :: InBlock(f.ppb, b, p) && 0 <= p < |f.state| ==> f.state[p] == VALID
  {
    assert Uniform(f, b);
  }

  /** Which logical pages still live in block `b`. */
  ghost predicate LivesIn(f: Image, b: nat, a: int)
    requires Sizes(f) && 0 <= a < |f.forward|
  {
    f.forward[a] != -1 && InBlock(f.ppb, b, f.forward[a])
  }

  /** Rewriting live page `p` of a closed block elsewhere takes just that logical page out of the block. */
  lemma MoveOut(f: Image, g: Image, b: nat, p: nat, q: nat)
    requires Shape(f) && Shape(g) && Mapped(f) && b < f.blocks && Closed(f, b)
    requires p < |f.state| && InBlock(f.ppb, b, p) && IsLive(f, p) && 0 <= f.reverse[p] < |f.forward|
    requires Wrote(f, g, f.reverse[p], f.data[p], q)
    ensures forall a :: 0 <= a < |f.forward| ==>
      (LivesIn(g, b, a) <==> LivesIn(f, b, a) && f.forward[a] != p)
        && (LivesIn(g, b, a) ==> g.forward[a] == f.forward[a])
    ensures forall r :: 0 <= r < |f.state| && r != p && InBlock(f.ppb, b, r) && IsLive(f, r) ==> IsLive(g, r)
  {
    ClosedIsProgrammed(f, b);
    assert !InBlock(f.ppb, b, q);
    forall a | 0 <= a < |f.forward| && a != f.reverse[p] ensures f.forward[a] != p {
      assert Sound(f, a);
    }
    forall r | 0 <= r < |f.state| && r != p && InBlock(f.ppb, b, r) && IsLive(f, r) ensures IsLive(g, r) {
      assert ReverseOk(f, r);
    }
  }

  /** One copy, when there is room: the contents stand, the copied page alone leaves the block, and
      the pages still to copy are live as before. */
  lemma CopyOne(f: Image, b: nat, pages: seq<nat>) returns (g: Image)
    requires Shape(f) && Mapped(f) && b < f.blocks && Closed(f, b)
    requires pages != [] && PagesOf(f, b, pages) && Copyable(f, pages) && Writable(f.state) > 0
    ensures 0 <= f.reverse[pages[0]] < |f.forward| && g == WriteLog(f, f.reverse[pages[0]], f.data[pages[0]])
    ensures Mapped(g) && Contents(g) == Contents(f) && Writable(g.state) == Writable(f.state) - 1
    ensures g.writeFails == f.writeFails && Closed(g, b)
    ensures PagesOf(g, b, pages[1..]) && Copyable(g, pages[1..])
    ensures forall a :: 0 <= a < |f.forward| ==>
      (LivesIn(g, b, a) <==> LivesIn(f, b, a) && f.forward[a] != pages[0])
        && (LivesIn(g, b, a) ==> g.forward[a] == f.forward[a])
  {
    var p := pages[0];
    assert IsLive(f, p) && ReverseOk(f, p);
    var a0 := f.reverse[p];
    g := WriteLog(f, a0, f.data[p]);
    assert Contents(f)[a0 := f.data[p]] == Contents(f);
    WriteTheorem(f, a0, f.data[p]);
    WriteKeepsClosed(f, a0, f.data[p], b);
    WriteKeepsCopyable(f, a0, f.data[p], pages[1..]);
    FullIff(f);
    var q := WriteIs(f, a0, f.data[p]);
    MoveOut(f, g, b, p, q);
  }

  /** With room for all of them, copying the live pages loses nothing and empties the block. */
  lemma {:induction false} CopyAll(f: Image, b: nat, pages: seq<nat>)
    requires Shape(f) && Mapped(f) && b < f.blocks && Closed(f, b)
    requires PagesOf(f, b, pages) && Copyable(f, pages) && |pages| <= Writable(f.state)
    ensures var g := CopyLive(f, pages);
            Mapped(g) && Contents(g) == Contents(f) && Writable(g.state) == Writable(f.state) - |pages|
            && g.writeFails == f.writeFails && Closed(g, b)
    ensures var g := CopyLive(f, pages);
            forall a :: 0 <= a < |f.forward| && LivesIn(g, b, a) ==> LivesIn(f, b, a) && f.forward[a] !in pages
    decreases |pages|
  {
    if pages != [] {
      var h := CopyOne(f, b, pages);
      CopyAll(h, b, pages[1..]);
      var g := CopyLive(f, pages);
      assert g == CopyLive(h, pages[1..]);
      forall a | 0 <= a < |f.forward| && LivesIn(g, b, a) ensures LivesIn(f, b, a) && f.forward[a] !in pages {
        assert LivesIn(h, b, a) && h.forward[a] !in pages[1..];
        assert pages == [pages[0]] + pages[1..];
      }
    }
  }

  /** On a full device every copy is refused. */
  lemma {:induction false} CopyNone(f: Image, pages: seq<nat>)
    requires Shape(f) && Copyable(f, pages) && Full(f)
    ensures CopyLive(f, pages).forward == f.forward
    decreases |pages|
  {
    if pages != [] {
      assert ReverseOk(f, pages[0]);
      var g := WriteLog(f, f.reverse[pages[0]], f.data[pages[0]]);
      FullIff(f);
      FullIff(g);
      CopyNone(g, pages[1..]);
    }
  }

  /** Without room for all of them, some logical page is left behind in the block. */
  lemma {:induction false} CopySome(f: Image, b: nat, pages: seq<nat>) returns (a: nat)
    requires Shape(f) && Mapped(f) && b < f.blocks && Closed(f, b)
    requires PagesOf(f, b, pages) && Copyable(f, pages) && |pages| > Writable(f.state)
    ensures a < |f.forward| && LivesIn(CopyLive(f, pages), b, a)
    decreases |pages|
  {
    if Writable(f.state) == 0 {
      FullIff(f);
      CopyNone(f, pages);
      assert IsLive(f, pages[0]) && ReverseOk(f, pages[0]);
      a := f.reverse[pages[0]];
    } else {
      var h := CopyOne(f, b, pages);
      a := CopySome(h, b, pages[1..]);
    }
  }

  /** Erasing a block nothing lives in keeps the contents; erasing any other breaks the mapping. */
  lemma EraseTheorem(f: Image, b: nat)
    requires Shape(f) && b < f.blocks && b != f.block && Shape(Erase(f, b))
    ensures Mapped(f) && (forall a :: 0 <= a < |f.forward| ==> !LivesIn(f, b, a)) ==>
      Mapped(Erase(f, b)) && Contents(Erase(f, b)) == Contents(f)
    ensures forall a :: 0 <= a < |f.forward| && LivesIn(f, b, a) ==> !Sound(Erase(f, b), a)
    ensures forall a :: 0 <= a < |f.forward| && !Sound(f, a) ==> !Sound(Erase(f, b), a)
  {
    var g := Erase(f, b);
    if Mapped(f) && forall a :: 0 <= a < |f.forward| ==> !LivesIn(f, b, a) {
      forall a | 0 <= a < |f.forward|
        ensures Sound(g, a) && (f.forward[a] != -1 ==> g.data[f.forward[a]] == f.data[f.forward[a]])
      {
        assert Sound(f, a) && !LivesIn(f, b, a);
      }
    }
  }

  lemma EraseRoom(f: Image, b: nat)
    requires Shape(f) && b < f.blocks && b != f.block && Shape(Erase(f, b))
    ensures Writable(Erase(f, b).state) == Writable(f.state) + (if Head(f, b) == VALID then f.ppb else 0)
  {
    assert Uniform(f, b);
    FirstInRange(f, b);
    if Head(f, b) == VALID {
      WritableErased(f.state, Erase(f, b).state, First(f.ppb, b), f.ppb);
    } else {
      WritableSame(f.state, Erase(f, b).state);
    }
  }

  lemma CollectInvalid(f: Image, b: nat)
    requires Shape(f) && Mapped(f) && b < f.blocks && !Skips(f, b) && Head(f, b) == INVALID
    ensures var g := Collect(f, b);
      Mapped(g) && Contents(g) == Contents(f) && Writable(g.state) == Writable(f.state) && g.writeFails == f.writeFails
  {
    hide Sizes, Uniform, UsedOk, ReverseOk, Sound, Contents, Writable;
    FirstInRange(f, b);
    NothingLive(f, b, First(f.ppb, b), First(f.ppb, b) + f.ppb);
    EraseShape(f, b);
    NothingLivesThere(f, b);
    EraseTheorem(f, b);
    EraseRoom(f, b);
  }

  lemma NothingLivesThere(f: Image, b: nat)
    requires Shape(f) && Mapped(f) && b < f.blocks && b != f.block && Head(f, b) == INVALID
    ensures forall a :: 0 <= a < |f.forward| ==> !LivesIn(f, b, a)
  {
    forall a | 0 <= a < |f.forward| ensures !LivesIn(f, b, a) {
      assert Uniform(f, b) && Sound(f, a);
    }
  }

  lemma CollectFits(f: Image, b: nat)
    requires Shape(f) && Mapped(f) && b < f.blocks && !Skips(f, b) && Head(f, b) == VALID
    requires |Live(f, b)| <= Writable(f.state)
    ensures var g := Collect(f, b);
      Mapped(g) && Contents(g) == Contents(f) && g.writeFails == f.writeFails
      && Writable(g.state) == Writable(f.state) - |Live(f, b)| + f.ppb
  {
    LiveIs(f, b);
    CollectShape(f, b);
    CopyAll(f, b, Live(f, b));
    var h := CopyLive(f, Live(f, b));
    forall a | 0 <= a < |f.forward| ensures !LivesIn(h, b, a) {
      assert Sound(f, a);
      assert LivesIn(f, b, a) ==> IsLive(f, f.forward[a]);
    }
    EraseTheorem(h, b);
    EraseRoom(h, b);
  }

  lemma CollectLoses(f: Image, b: nat) returns (a: nat)
    requires Shape(f) && Mapped(f) && b < f.blocks && !Skips(f, b) && Head(f, b) == VALID
    requires |Live(f, b)| > Writable(f.state)
    ensures a < |f.forward| && !Sound(Collect(f, b), a)
  {
    LiveIs(f, b);
    CollectShape(f, b);
    a := CopySome(f, b, Live(f, b));
    CopyKeepsClosed(f, Live(f, b), b);
    EraseTheorem(CopyLive(f, Live(f, b)), b);
  }

  // ---------- a lost page stays lost ----------

  lemma WriteKeepsUnsound(f: Image, a: nat, d: char, lost: nat)
    requires Shape(f) && a < |f.forward| && lost < |f.forward| && a != lost && !Sound(f, lost)
    ensures !Sound(WriteLog(f, a, d), lost)
  {
    if !Full(f) {
      var q := WriteIs(f, a, d);
    }
  }

  lemma {:induction false} CopyKeepsUnsound(f: Image, b: nat, pages: seq<nat>, lost: nat)
    requires Shape(f) && Copyable(f, pages) && b < f.blocks && Closed(f, b)
    requires lost < |f.forward| && !Sound(f, lost)
    requires forall i :: 0 <= i < |pages| ==> InBlock(f.ppb, b, pages[i]) && f.reverse[pages[i]] != lost
    ensures !Sound(CopyLive(f, pages), lost)
    decreases |pages|
  {
    if pages != [] {
      assert ReverseOk(f, pages[0]);
      var a, d := f.reverse[pages[0]], f.data[pages[0]];
      var g := WriteLog(f, a, d);
      WriteKeepsCopyable(f, a, d, pages[1..]);
      WriteKeepsClosed(f, a, d, b);
      WriteKeepsUnsound(f, a, d, lost);
      forall i | 0 <= i < |pages[1..]| ensures g.reverse[pages[1..][i]] == f.reverse[pages[1..][i]] {
        ClosedIsProgrammed(f, b);
        if !Full(f) { var q := WriteIs(f, a, d); }
      }
      CopyKeepsUnsound(g, b, pages[1..], lost);
    }
  }

  /** The collector never rewrites an unsound logical page: a live page of a closed block is sound. */
  lemma UnsoundIsNotLive(f: Image, b: nat, pages: seq<nat>, lost: nat)
    requires Shape(f) && b < f.blocks && Closed(f, b) && PagesOf(f, b, pages)
    requires lost < |f.forward| && !Sound(f, lost)
    ensures forall i :: 0 <= i < |pages| ==> InBlock(f.ppb, b, pages[i]) && f.reverse[pages[i]] != lost
  {
    ClosedIsProgrammed(f, b);
    forall i | 0 <= i < |pages| ensures f.reverse[pages[i]] != lost { assert IsLive(f, pages[i]); }
  }

  lemma CollectKeepsUnsound(f: Image, b: nat, lost: nat)
    requires Shape(f) && b < f.blocks && !Skips(f, b) && lost < |f.forward| && !Sound(f, lost)
    ensures !Sound(Collect(f, b), lost)
  {
    hide Sizes, Uniform, UsedOk, ReverseOk, Sound, Erase, PagesOf;
    LiveIs(f, b);
    FirstInRange(f, b);
    CollectShape(f, b);
    var pages := Live(f, b);
    if Head(f, b) == VALID {
      UnsoundIsNotLive(f, b, pages, lost);
      CopyKeepsUnsound(f, b, pages, lost);
      CopyKeepsClosed(f, pages, b);
    } else {
      NothingLive(f, b, First(f.ppb, b), First(f.ppb, b) + f.ppb);
    }
    EraseTheorem(CopyLive(f, pages), b);
  }

  lemma MarkKeepsSound(f: Image, b: nat)
    requires Shape(f) && b < f.blocks && Shape(f.(gcBlock := b, gcCount := f.gcCount + 1))
    ensures var g := f.(gcBlock := b, gcCount := f.gcCount + 1);
      (Mapped(g) <==> Mapped(f)) && Contents(g) == Contents(f) && g.state == f.state && g.writeFails == f.writeFails
      && forall a :: 0 <= a < |f.forward| ==> (Sound(g, a) <==> Sound(f, a))
  {
    var g := f.(gcBlock := b, gcCount := f.gcCount + 1);
    assert forall a :: 0 <= a < |f.forward| ==> (Sound(g, a) <==> Sound(f, a));
  }

  lemma {:induction false} GcKeepsUnsound(f: Image, order: seq<nat>, low: int, lost: nat)
    requires Shape(f) && (forall i :: 0 <= i < |order| ==> order[i] < f.blocks)
    requires lost < |f.forward| && !Sound(f, lost)
    ensures !Sound(Gc(f, order, low), lost)
    decreases |order|
  {
    if order != [] {
      if Skips(f, order[0]) {
        GcKeepsUnsound(f, order[1..], low, lost);
      } else {
        CollectKeepsUnsound(f, order[0], lost);
        var g := Collect(f, order[0]);
        if BlocksInUse(g) <= low {
          MarkShape(g, order[0]);
          MarkKeepsSound(g, order[0]);
        } else {
          GcKeepsUnsound(g, order[1..], low, lost);
        }
      }
    }
  }

  // ---------- a whole collection ----------

  /** No block is erased while it is the one being written. */
  ghost predicate SparesOpen(f: Image, order: seq<nat>, low: int)
    requires Shape(f) && forall i :: 0 <= i < |order| ==> order[i] < f.blocks
    decreases |order|
  {
    if order == [] then true
    else if Skips(f, order[0]) then SparesOpen(f, order[1..], low)
    else
      LiveIsCopyable(f, order[0]);
      CopyLive(f, Live(f, order[0])).block != order[0]
      && (BlocksInUse(Collect(f, order[0])) <= low || SparesOpen(Collect(f, order[0]), order[1..], low))
  }

  lemma CollectSparesOpen(f: Image, b: nat)
    requires Shape(f) && b < f.blocks && !Skips(f, b) && Copyable(f, Live(f, b))
    ensures CopyLive(f, Live(f, b)).block != b
  {
    hide Sizes, Uniform, UsedOk, ReverseOk, Live;
    FirstInRange(f, b);
    if Head(f, b) == VALID {
      CopyKeepsClosed(f, Live(f, b), b);
    } else if Head(f, b) == INVALID {
      NothingHere(f, b);
    }
  }

  lemma NothingHere(f: Image, b: nat)
    requires Shape(f) && b < f.blocks && b != f.block && Head(f, b) == INVALID
    ensures Live(f, b) == []
  {
    hide Uniform, UsedOk, ReverseOk;
    FirstInRange(f, b);
    NothingLive(f, b, First(f.ppb, b), First(f.ppb, b) + f.ppb);
  }

  /** The copies may move the cursor to another block, but never to the one about to be erased. */
  lemma {:induction false} GcSparesOpen(f: Image, order: seq<nat>, low: int)
    requires Shape(f) && forall i :: 0 <= i < |order| ==> order[i] < f.blocks
    ensures SparesOpen(f, order, low)
    decreases |order|
  {
    hide Sizes, Uniform, UsedOk, ReverseOk, Live, Collect, BlocksInUse, Skips;
    if order != [] {
      if Skips(f, order[0]) {
        GcSparesOpen(f, order[1..], low);
      } else {
        LiveIsCopyable(f, order[0]);
        CollectSparesOpen(f, order[0]);
        GcSparesOpen(Collect(f, order[0]), order[1..], low);
      }
    }
  }

  /** With ppb - 1 writable pages at the start, a collection keeps every value, never finds the device
      full, never erases the block being written, and never leaves less room. */
  lemma {:induction false} GcWithRoom(f: Image, order: seq<nat>, low: int)
    requires Shape(f) && Mapped(f) && (forall i :: 0 <= i < |order| ==> order[i] < f.blocks)
    requires Writable(f.state) >= f.ppb - 1
    ensures var g := Gc(f, order, low);
      Mapped(g) && Contents(g) == Contents(f) && Writable(g.state) >= Writable(f.state) && g.writeFails == f.writeFails
    ensures SparesOpen(f, order, low)
    decreases |order|
  {
    hide Sizes, Uniform, UsedOk, ReverseOk, Sound, Contents, Writable, Live, Collect, BlocksInUse, SparesOpen;
    GcSparesOpen(f, order, low);
    if order != [] {
      var b := order[0];
      if Skips(f, b) {
        GcWithRoom(f, order[1..], low);
      } else {
        LiveIs(f, b);
        CollectKeeps(f, b);
        var g := Collect(f, b);
        if BlocksInUse(g) <= low {
          MarkShape(g, b);
          MarkKeepsSound(g, b);
        } else {
          GcWithRoom(g, order[1..], low);
        }
      }
    }
  }

  /** The first programmed block the collector gets to has no more live pages than there is room for. */
  ghost predicate FirstVictimFits(f: Image, order: seq<nat>, low: int)
    requires Shape(f) && forall i :: 0 <= i < |order| ==> order[i] < f.blocks
    decreases |order|
  {
    if order == [] then true
    else if Skips(f, order[0]) then FirstVictimFits(f, order[1..], low)
    else if Head(f, order[0]) == VALID then |Live(f, order[0])| <= Writable(f.state)
    else BlocksInUse(Collect(f, order[0])) <= low || FirstVictimFits(Collect(f, order[0]), order[1..], low)
  }

  lemma CollectKeeps(f: Image, b: nat)
    requires Shape(f) && Mapped(f) && b < f.blocks && !Skips(f, b)
    requires Head(f, b) == VALID ==> |Live(f, b)| <= Writable(f.state)
    ensures var g := Collect(f, b);
      Mapped(g) && Contents(g) == Contents(f) && Writable(g.state) >= Writable(f.state) && g.writeFails == f.writeFails
    ensures Head(f, b) == VALID ==> Writable(Collect(f, b).state) >= f.ppb
  {
    LiveIs(f, b);
    if Head(f, b) == INVALID { CollectInvalid(f, b); } else { CollectFits(f, b); }
  }

  /** A collection that meets a first victim too big for the room. */
  lemma GcLoses(f: Image, order: seq<nat>, low: int)
    requires Shape(f) && Mapped(f) && (forall i :: 0 <= i < |order| ==> order[i] < f.blocks)
    requires order != [] && !Skips(f, order[0]) && Head(f, order[0]) == VALID && |Live(f, order[0])| > Writable(f.state)
    ensures !Mapped(Gc(f, order, low))
  {
    var b := order[0];
    var lost := CollectLoses(f, b);
    var g := Collect(f, b);
    if BlocksInUse(g) <= low {
      MarkShape(g, b);
      MarkKeepsSound(g, b);
    } else {
      GcKeepsUnsound(g, order[1..], low, lost);
    }
    assert !Sound(Gc(f, order, low), lost);
  }

  /** Exactly when a collection is safe: the mapping survives if and only if the first victim fits, and
      then every value survives and the room does not shrink. */
  lemma {:induction false} GcExactlySafe(f: Image, order: seq<nat>, low: int)
    requires Shape(f) && Mapped(f) && (forall i :: 0 <= i < |order| ==> order[i] < f.blocks)
    ensures Mapped(Gc(f, order, low)) <==> FirstVictimFits(f, order, low)
    ensures var g := Gc(f, order, low); Mapped(g) ==>
      Contents(g) == Contents(f) && Writable(g.state) >= Writable(f.state) && g.writeFails == f.writeFails
    decreases |order|
  {
    hide Sizes, Uniform, UsedOk, ReverseOk, Sound, Contents, Writable, Live, Collect, BlocksInUse;
    if order != [] {
      var b := order[0];
      if Skips(f, b) {
        GcExactlySafe(f, order[1..], low);
      } else if Head(f, b) == VALID && |Live(f, b)| > Writable(f.state) {
        GcLoses(f, order, low);
      } else {
        CollectKeeps(f, b);
        var g := Collect(f, b);
        if BlocksInUse(g) <= low {
          MarkShape(g, b);
          MarkKeepsSound(g, b);
        } else if Head(f, b) == VALID {
          GcWithRoom(g, order[1..], low);
        } else {
          GcExactlySafe(g, order[1..], low);
        }
      }
    }
  }

  // ---------- the same, from the commands' side ----------

  /** A new device: nothing mapped, nothing programmed. */
  ghost predicate IsFresh(f: Image, logical: nat, blocks: nat, ppb: nat) {
    && f.blocks == blocks && f.ppb == ppb
    && f.state == Repeat(blocks * ppb, INVALID) && f.data == Repeat(blocks * ppb, ' ')
    && f.forward == Repeat(logical, -1) && f.reverse == Repeat(blocks * ppb, -1)
    && f.page == -1 && f.block == 0 && f.used == Repeat(blocks, 0)
    && f.gcBlock == 0 && f.gcCount == 0 && f.writeFails == 0
  }

  ghost function Repeat<T>(n: nat, x: T): seq<T> {
    seq(n, _ => x)
  }

  lemma FreshIsEmpty(f: Image, logical: nat, blocks: nat, ppb: nat)
    requires blocks >= 1 && ppb >= 1 && IsFresh(f, logical, blocks, ppb)
    ensures Shape(f) && Mapped(f) && Contents(f) == map[] && Writable(f.state) == blocks * ppb
  {
    FirstIsProduct(ppb, blocks);
    forall b | 0 <= b < blocks ensures Uniform(f, b) && UsedOk(f, b) { FirstInRange(f, b); }
    WritableRepeat(blocks * ppb);
  }

  lemma {:induction false} WritableRepeat(n: nat)
    ensures Writable(Repeat(n, INVALID)) == n
  {
    if n > 0 {
      WritableRepeat(n - 1);
      assert Repeat(n, INVALID)[..n - 1] == Repeat(n - 1, INVALID);
    }
  }

  /** upkeep never changes what is stored, provided it starts with ppb - 1 writable pages. */
  lemma UpkeepWithRoom(f: Image, high: int, low: int)
    requires Shape(f) && Mapped(f) && (BlocksInUse(f) >= high ==> Writable(f.state) >= f.ppb - 1)
    ensures var g := Upkeep(f, high, low);
      Mapped(g) && Contents(g) == Contents(f) && Writable(g.state) >= Writable(f.state) && g.writeFails == f.writeFails
  {
    if BlocksInUse(f) >= high {
      GcWithRoom(f, Order(f), low);
    }
  }

  /** trim */
  ghost function Trim(f: Image, a: nat): Image
    requires Sizes(f) && a < |f.forward|
  {
    f.(forward := f.forward[a := -1])
  }

  lemma TrimTheorem(f: Image, a: nat)
    requires Shape(f) && a < |f.forward|
    ensures Shape(Trim(f, a)) && (Mapped(f) ==> Mapped(Trim(f, a)))
    ensures Contents(Trim(f, a)) == Contents(f) - {a}
  {
    var g := Trim(f, a);
    forall p | 0 <= p < |g.state| ensures ReverseOk(g, p) { assert ReverseOk(f, p); }
    forall c | 0 <= c < f.blocks ensures Uniform(g, c) && UsedOk(g, c) { assert Uniform(f, c) && UsedOk(f, c); }
    if Mapped(f) {
      forall c | 0 <= c < |g.forward| ensures Sound(g, c) { assert Sound(f, c); }
    }
  }
}
